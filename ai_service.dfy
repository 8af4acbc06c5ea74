/** The deterministic parts of `AIService`: cleaning the model's reply, turning the decoded
    reply into a result, the mock and fallback results, and the prompt material the
    cross-document analysis assembles. The language-model client and the JSON decoder
    are parameters. */
module AiService {
  import opened Wrappers
  import opened Strings
  import opened Json
  import opened Http
  import opened Models
  import opened PyInt
  import PromptInjection

  /** What the language-model client hands back: the reply text, or the message of the
      exception that `generate_content` or `response.text` raised. */
  type Reply = Result<string, string>

  /** An exception raised inside one of the service's `try` blocks. */
  datatype Fault =
    | ClientFault(msg: string)
    | DecodeFault(msg: string)
    | RejectedFault(err: HttpError)
    | TypeFault(what: string)

  /** `str(e)`. An `HTTPException` prints as "status: detail"; for Python's own type and
      value errors the label stands in for the interpreter's message. */
  function FaultMessage(f: Fault): string
  {
    match f
    case ClientFault(msg) => msg
    case DecodeFault(msg) => msg
    case RejectedFault(err) => IntToString(err.status) + ": " + err.detail
    case TypeFault(what) => what
  }

  /** The service runs in mock mode unless `GEMINI_API_KEY` is set to a non-empty value. */
  predicate ModelConfigured(apiKey: Option<string>)
  {
    apiKey.Some? && apiKey.value != ""
  }

  // ---------------------------------------------------------------------------
  // Reply cleaning and value conversion
  // ---------------------------------------------------------------------------

  /** The markdown-fence cleaner, applied to the already stripped reply: drop a leading
      "```json", then a leading "```", then a trailing "```", then strip again. */
  function CleanFences(t: string): (r: string)
    ensures |r| <= |t|
    ensures r == [] || (!IsSpace(r[0]) && !IsSpace(r[|r| - 1]))
  {
    var a := if StartsWith(t, "```json") then t[7..] else t;
    var b := if StartsWith(a, "```") then a[3..] else a;
    var c := if EndsWith(b, "```") then b[..|b| - 3] else b;
    Strip(c)
  }

  /** A stripped reply with no fence at either end passes through unchanged. */
  lemma FenceFreeUnchanged(t: string)
    requires t == [] || (!IsSpace(t[0]) && !IsSpace(t[|t| - 1]))
    requires !StartsWith(t, "```") && !EndsWith(t, "```")
    ensures CleanFences(t) == t
  {
    if StartsWith(t, "```" + "json") {
      StartsWithConcat(t, "```", "json");
    }
    assert !StartsWith(t, "```json");
    StripUnchanged(t);
  }

  /** A reply fenced as "```json" + body + "```" cleans to the stripped body, provided the
      body does not itself open with a fence. */
  lemma JsonFenceCleaned(body: string)
    requires !StartsWith(body, "```")
    ensures CleanFences("```json" + body + "```") == Strip(body)
  {
    var t := "```json" + body + "```";
    assert t[..7] == "```json";
    var a := t[7..];
    assert a == body + "```";
    if StartsWith(a, "```") {
      assert |body| < 3;
      var b := a[3..];
      assert forall i :: 0 <= i < |a| ==> a[i] == '`' by {
        forall i | 0 <= i < |a| ensures a[i] == '`' {
          if i < 3 { assert a[i] == a[..3][i]; } else { assert a[i] == "```"[i - |body|]; }
        }
      }
      assert b == body by {
        assert |b| == |body|;
        forall i | 0 <= i < |b| ensures b[i] == body[i] {
          assert body[i] == a[i];
        }
      }
    } else {
      assert EndsWith(a, "```");
      assert a[..|a| - 3] == body;
    }
  }

  /** `min(100, max(0, x))`. */
  function Clamp(x: int): (r: int)
    ensures 0 <= r <= 100
    ensures 0 <= x <= 100 ==> r == x
    ensures x < 0 ==> r == 0
    ensures x > 100 ==> r == 100
  {
    var m := if x > 0 then x else 0;
    if m < 100 then m else 100
  }

  /** `int(v)` for a decoded value. */
  function ToInt(v: JsonValue): (r: Result<int, Fault>)
    ensures v.JInt? ==> r == Success(v.i)
    ensures v.JBool? ==> r == Success(if v.b then 1 else 0)
    ensures v.JFloat? ==> r.Success? && Truncate(v.f) == r.value
    ensures v.JNull? || v.JList? || v.JObject? ==> r.Failure?
    ensures v.JStr? ==> (r.Success? <==> ParseInt(v.s).Some?)
    ensures v.JStr? && r.Success? ==> r.value == ParseInt(v.s).value
  {
    match v
    case JInt(i) => Success(i)
    case JBool(b) => Success(if b then 1 else 0)
    case JFloat(f) => Success(Truncate(f))
    case JStr(s) =>
      (match ParseInt(s)
       case Some(n) => Success(n)
       case None => Failure(TypeFault("invalid literal for int() with base 10")))
    case _ => Failure(TypeFault("int() argument must be a string or a real number"))
  }

  // ---------------------------------------------------------------------------
  // validate_findings on a decoded value
  // ---------------------------------------------------------------------------

  /** What `validate_findings` hands back for a value of any type: a list of strings, a
      string (sliced and examined character by character) or a dictionary (its keys
      examined), the last two of which the result model refuses afterwards. */
  datatype Checked = CheckedList(items: seq<string>) | CheckedText | CheckedObject

  /** Decoded strings. */
  function Strs(xs: seq<string>): (r: seq<JsonValue>)
    ensures |r| == |xs| && forall i :: 0 <= i < |xs| ==> r[i] == JStr(xs[i])
  {
    seq(|xs|, i requires 0 <= i < |xs| => JStr(xs[i]))
  }

  /** The one-character strings a loop over a string visits. */
  function CharItems(s: string): (r: seq<string>)
    ensures |r| == |s| && forall i :: 0 <= i < |s| ==> r[i] == [s[i]]
  {
    seq(|s|, i requires 0 <= i < |s| => [s[i]])
  }

  /** The loop of `validate_findings` over decoded items: the first item that is not a
      string raises a type error, the first suspicious string the 500 rejection. */
  function ScanItems(items: seq<JsonValue>): (r: Result<seq<string>, Fault>)
    ensures r.Success? ==> |r.value| == |items|
    ensures r.Success? ==> forall i :: 0 <= i < |items| ==>
      items[i] == JStr(r.value[i]) && !PromptInjection.Suspicious(r.value[i])
    ensures r.Failure? ==> r.error.TypeFault? || r.error == RejectedFault(PromptInjection.OutputRejectedError)
  {
    if items == [] then Success([])
    else if !items[0].JStr? then Failure(TypeFault("object has no attribute 'lower'"))
    else if PromptInjection.Suspicious(items[0].s) then
      Failure(RejectedFault(PromptInjection.OutputRejectedError))
    else
      match ScanItems(items[1..])
      case Failure(f) => Failure(f)
      case Success(rest) => Success([items[0].s] + rest)
  }

  /** `validate_findings(v)` for a decoded value `v`. A dictionary of more than 50 keys
      cannot be sliced; a smaller one is looped over by its keys, which are strings, so
      the order of the loop does not change the outcome. Values without a length raise
      at `len`. */
  function CheckItems(v: JsonValue): (r: Result<Checked, Fault>)
    ensures r.Success? && r.value.CheckedList? ==>
      |r.value.items| <= PromptInjection.MaxFindings &&
      forall i :: 0 <= i < |r.value.items| ==> !PromptInjection.Suspicious(r.value.items[i])
    ensures r.Success? && r.value.CheckedList? ==> v.JList?
    ensures v.JObject? ==>
      (r == Failure(RejectedFault(PromptInjection.OutputRejectedError)) <==>
       |v.fields| <= PromptInjection.MaxFindings && exists k :: k in v.fields && PromptInjection.Suspicious(k))
    ensures v.JObject? && r.Success? ==> r.value == CheckedObject
    ensures v.JObject? && |v.fields| > PromptInjection.MaxFindings ==> r.Failure? && r.error.TypeFault?
    ensures v.JNull? || v.JBool? || v.JInt? || v.JFloat? ==> r.Failure? && r.error.TypeFault?
  {
    match v
    case JList(items) =>
      var kept := if |items| > PromptInjection.MaxFindings then items[..PromptInjection.MaxFindings] else items;
      (match ScanItems(kept)
       case Failure(f) => Failure(f)
       case Success(strs) => Success(CheckedList(strs)))
    case JStr(s) =>
      if PromptInjection.CheckFindings(CharItems(s)).Failure? then
        Failure(RejectedFault(PromptInjection.OutputRejectedError))
      else Success(CheckedText)
    case JObject(fields) =>
      if |fields| > PromptInjection.MaxFindings then Failure(TypeFault("unhashable type: 'slice'"))
      else if exists k :: k in fields && PromptInjection.Suspicious(k) then
        Failure(RejectedFault(PromptInjection.OutputRejectedError))
      else Success(CheckedObject)
    case _ => Failure(TypeFault("object has no len()"))
  }

  /** Scanning decoded strings is `validate_findings` on the strings themselves. */
  lemma {:induction false} ScanStrings(xs: seq<string>)
    ensures ScanItems(Strs(xs)) ==
      if PromptInjection.AnySuspicious(xs)
      then Failure(RejectedFault(PromptInjection.OutputRejectedError))
      else Success(xs)
  {
    if xs != [] {
      var items := Strs(xs);
      assert items[0] == JStr(xs[0]);
      assert items[1..] == Strs(xs[1..]);
      ScanStrings(xs[1..]);
      PromptInjection.SuspiciousCons(xs);
      if !PromptInjection.Suspicious(xs[0]) && !PromptInjection.AnySuspicious(xs[1..]) {
        assert [xs[0]] + xs[1..] == xs;
      }
    }
  }

  /** A list of strings is checked exactly as `CheckFindings` checks it. */
  lemma CheckItemsOfStrings(xs: seq<string>)
    ensures CheckItems(JList(Strs(xs))) ==
      match PromptInjection.CheckFindings(xs)
      case Success(kept) => Success(CheckedList(kept))
      case Failure(e) => Failure(RejectedFault(e))
  {
    var kept := PromptInjection.Kept(xs);
    assert Strs(xs)[..|kept|] == Strs(kept);
    ScanStrings(kept);
  }

  // ---------------------------------------------------------------------------
  // analyze_text
  // ---------------------------------------------------------------------------

  const MockAnalysis := AnalysisResult(
    75, "High",
    ["Missing SOC2 Type II report",
     "No penetration test results found for the last 12 months",
     "Data encryption at rest is not explicitly mentioned"],
    ["Request latest SOC2 report",
     "Schedule a third-party penetration test",
     "Clarify encryption standards"])

  /** The result that replaces a failed analysis. */
  function FallbackAnalysis(f: Fault): AnalysisResult
  {
    AnalysisResult(50, "Medium", ["AI analysis error: " + FaultMessage(f)],
                   ["Retry analysis or review document manually"])
  }

  /** The `AnalysisResult` built from a decoded reply object. Arguments are evaluated in
      the source's order; the result model then refuses a non-string level and findings
      that are not lists. */
  function BuildAnalysis(d: map<string, JsonValue>): (r: Result<AnalysisResult, Fault>)
    ensures r.Success? ==> 0 <= r.value.riskScore <= 100
    ensures r.Success? ==> Get(d, "risk_level", JStr("Medium")) == JStr(r.value.riskLevel)
    ensures r.Success? ==> |r.value.findings| <= PromptInjection.MaxFindings
    ensures r.Success? ==> forall i :: 0 <= i < |r.value.findings| ==>
      !PromptInjection.Suspicious(r.value.findings[i])
    ensures r.Success? ==> |r.value.recommendations| <= PromptInjection.MaxFindings
    ensures r.Success? ==> forall i :: 0 <= i < |r.value.recommendations| ==>
      !PromptInjection.Suspicious(r.value.recommendations[i])
    ensures r.Success? ==> (ToInt(Get(d, "risk_score", JInt(50))).Success? &&
      r.value.riskScore == Clamp(ToInt(Get(d, "risk_score", JInt(50))).value))
    ensures r.Success? ==> CheckItems(Get(d, "findings", JList([]))) == Success(CheckedList(r.value.findings))
    ensures r.Success? ==> CheckItems(Get(d, "recommendations", JList([]))) == Success(CheckedList(r.value.recommendations))
    ensures r.Success? <==>
      CheckItems(Get(d, "findings", JList([]))).Success? && CheckItems(Get(d, "findings", JList([]))).value.CheckedList? &&
      CheckItems(Get(d, "recommendations", JList([]))).Success? &&
      CheckItems(Get(d, "recommendations", JList([]))).value.CheckedList? &&
      ToInt(Get(d, "risk_score", JInt(50))).Success? && Get(d, "risk_level", JStr("Medium")).JStr?
    ensures CheckItems(Get(d, "findings", JList([]))).Failure? ==>
      r == Failure(CheckItems(Get(d, "findings", JList([]))).error)
    ensures (CheckItems(Get(d, "findings", JList([]))).Success? &&
      CheckItems(Get(d, "recommendations", JList([]))).Failure?) ==>
      r == Failure(CheckItems(Get(d, "recommendations", JList([]))).error)
  {
    var findings := CheckItems(Get(d, "findings", JList([])));
    if findings.Failure? then Failure(findings.error)
    else
      var recs := CheckItems(Get(d, "recommendations", JList([])));
      if recs.Failure? then Failure(recs.error)
      else
        var score := ToInt(Get(d, "risk_score", JInt(50)));
        if score.Failure? then Failure(score.error)
        else
          var level := Get(d, "risk_level", JStr("Medium"));
          if !level.JStr? || !findings.value.CheckedList? || !recs.value.CheckedList? then
            Failure(TypeFault("validation error for AnalysisResult"))
          else
            Success(AnalysisResult(Clamp(score.value), level.s, findings.value.items, recs.value.items))
  }

  /** The `try` block of `analyze_text`: ask the model, clean and decode its reply, and
      build the result. */
  function AnalysisAttempt(clean: string, complete: string -> Reply, parse: Parser): (r: Result<AnalysisResult, Fault>)
    ensures complete(clean).Failure? ==> r == Failure(ClientFault(complete(clean).error))
    ensures (complete(clean).Success? && parse(CleanFences(Strip(complete(clean).value))).Failure?) ==>
      r == Failure(DecodeFault(parse(CleanFences(Strip(complete(clean).value))).error))
    ensures r.Success? ==> (complete(clean).Success? &&
      var parsed := parse(CleanFences(Strip(complete(clean).value)));
      parsed.Success? && parsed.value.JObject? && r == BuildAnalysis(parsed.value.fields))
  {
    match complete(clean)
    case Failure(msg) => Failure(ClientFault(msg))
    case Success(reply) =>
      match parse(CleanFences(Strip(reply)))
      case Failure(msg) => Failure(DecodeFault(msg))
      case Success(parsed) =>
        if !parsed.JObject? then Failure(TypeFault("object has no attribute 'get'"))
        else BuildAnalysis(parsed.fields)
  }

  /** `analyze_text`: sanitising comes first and outside the `try`, so its rejections
      reach the caller in mock mode too; after that every outcome is a result, the
      fallback standing in for any fault. */
  function AnalyzeText(text: string, apiKey: Option<string>, complete: string -> Reply, parse: Parser)
    : (r: Result<AnalysisResult, HttpError>)
    ensures r.Failure? <==> PromptInjection.SanitizeSpec(text).Failure?
    ensures r.Failure? ==> r.error == PromptInjection.SanitizeSpec(text).error
    ensures r.Success? ==> 0 <= r.value.riskScore <= 100
  {
    match PromptInjection.SanitizeSpec(text)
    case Failure(e) => Failure(e)
    case Success(clean) =>
      if !ModelConfigured(apiKey) then Success(MockAnalysis)
      else
        match AnalysisAttempt(clean, complete, parse)
        case Success(a) => Success(a)
        case Failure(f) => Success(FallbackAnalysis(f))
  }

  /** Without a key the result is the fixed mock, whatever the model or decoder would do. */
  lemma MockModeFixed(text: string, apiKey: Option<string>, complete: string -> Reply, parse: Parser)
    requires !ModelConfigured(apiKey) && PromptInjection.SanitizeSpec(text).Success?
    ensures AnalyzeText(text, apiKey, complete, parse) == Success(MockAnalysis)
    ensures MockAnalysis.riskScore == 75 && MockAnalysis.riskLevel == "High"
  {
  }

  /** A decoded reply whose findings and recommendations are accepted lists of strings,
      whose score `int()` accepts (an integer, a boolean, a float or a decimal string)
      and whose level is a string gives that level unchanged
      (it is not derived from the score), the clamped score and the kept lists. */
  lemma ReplyCopiedIntoResult(d: map<string, JsonValue>, findings: seq<string>, recs: seq<string>, score: int, level: string)
    requires Get(d, "findings", JList([])) == JList(Strs(findings))
    requires Get(d, "recommendations", JList([])) == JList(Strs(recs))
    requires ToInt(Get(d, "risk_score", JInt(50))) == Success(score)
    requires Get(d, "risk_level", JStr("Medium")) == JStr(level)
    requires PromptInjection.CheckFindings(findings).Success?
    requires PromptInjection.CheckFindings(recs).Success?
    ensures BuildAnalysis(d) == Success(AnalysisResult(
      Clamp(score), level, PromptInjection.Kept(findings), PromptInjection.Kept(recs)))
  {
    CheckItemsOfStrings(findings);
    CheckItemsOfStrings(recs);
  }

  /** Once the input is accepted and a key is set, any fault in the `try` block gives the
      50/"Medium" fallback carrying the fault's message. */
  lemma FaultGivesFallback(text: string, apiKey: Option<string>, complete: string -> Reply, parse: Parser)
    requires ModelConfigured(apiKey) && PromptInjection.SanitizeSpec(text).Success?
    requires AnalysisAttempt(PromptInjection.SanitizeSpec(text).value, complete, parse).Failure?
    ensures var f := AnalysisAttempt(PromptInjection.SanitizeSpec(text).value, complete, parse).error;
      AnalyzeText(text, apiKey, complete, parse) == Success(AnalysisResult(
        50, "Medium", ["AI analysis error: " + FaultMessage(f)],
        ["Retry analysis or review document manually"]))
  {
  }

  /** A suspicious finding among the first 50 is not filtered out: the 500 rejection is
      raised inside the `try` and turns into the fallback result. */
  lemma SuspiciousFindingGivesFallback(
    text: string, apiKey: Option<string>, complete: string -> Reply, parse: Parser,
    d: map<string, JsonValue>, findings: seq<string>)
    requires ModelConfigured(apiKey) && PromptInjection.SanitizeSpec(text).Success?
    requires complete(PromptInjection.SanitizeSpec(text).value).Success?
    requires parse(CleanFences(Strip(complete(PromptInjection.SanitizeSpec(text).value).value))) == Success(JObject(d))
    requires Get(d, "findings", JList([])) == JList(Strs(findings))
    requires exists i :: 0 <= i < |findings| && i < PromptInjection.MaxFindings && PromptInjection.Suspicious(findings[i])
    ensures AnalyzeText(text, apiKey, complete, parse) ==
      Success(FallbackAnalysis(RejectedFault(PromptInjection.OutputRejectedError)))
    ensures FaultMessage(RejectedFault(PromptInjection.OutputRejectedError)) ==
      "500: " + PromptInjection.OutputRejectedError.detail
  {
    PromptInjection.FindingsRejectionIff(findings);
    CheckItemsOfStrings(findings);
    var d2 := d;
    assert BuildAnalysis(d2).Failure? && BuildAnalysis(d2).error == RejectedFault(PromptInjection.OutputRejectedError);
    RejectionMessage();
  }

  /** The message the fallback finding carries for the output rejection. */
  lemma RejectionMessage()
    ensures FaultMessage(RejectedFault(PromptInjection.OutputRejectedError)) ==
      "500: " + PromptInjection.OutputRejectedError.detail
  {
    assert DigitChar(5) == '5' && DigitChar(0) == '0';
    assert NatToString(5) == "5";
    assert NatToString(50) == "5" + "0";
    assert NatToString(500) == "50" + "0";
  }

  /** A decode failure, or a score that `int()` refuses, gives the fallback. */
  lemma BadReplyGivesFallback(
    text: string, apiKey: Option<string>, complete: string -> Reply, parse: Parser)
    requires ModelConfigured(apiKey) && PromptInjection.SanitizeSpec(text).Success?
    requires complete(PromptInjection.SanitizeSpec(text).value).Success?
    requires var cleaned := CleanFences(Strip(complete(PromptInjection.SanitizeSpec(text).value).value));
      parse(cleaned).Failure? ||
      (parse(cleaned).Success? && parse(cleaned).value.JObject? &&
       CheckItems(Get(parse(cleaned).value.fields, "findings", JList([]))).Success? &&
       CheckItems(Get(parse(cleaned).value.fields, "recommendations", JList([]))).Success? &&
       ToInt(Get(parse(cleaned).value.fields, "risk_score", JInt(50))).Failure?)
    ensures var r := AnalyzeText(text, apiKey, complete, parse);
      r.Success? && r.value.riskScore == 50 && r.value.riskLevel == "Medium" &&
      |r.value.findings| == 1 && |r.value.recommendations| == 1
  {
  }

  // ---------------------------------------------------------------------------
  // analyze_all_documents: prompt material
  // ---------------------------------------------------------------------------

  /** A document's text as the caller hands it in (`{filename, text}`). */
  datatype DocumentText = DocumentText(filename: string, text: string)

  /** What the cross-document call puts into its prompt; the prose around these pieces
      is not modelled. */
  datatype SynthesisRequest = SynthesisRequest(
    vendorName: string, documentCount: nat, summaries: string, excerpts: string)

  /** How an f-string shows a decoded value. Strings, integers, booleans and `None` are
      spelled out; the `str()` of floats, lists and dictionaries is the parameter. */
  function Display(v: JsonValue, show: JsonValue -> string): string
  {
    match v
    case JStr(s) => s
    case JInt(i) => IntToString(i)
    case JBool(b) => if b then "True" else "False"
    case JNull => "None"
    case _ => show(v)
  }

  function Take(xs: seq<JsonValue>, n: nat): seq<JsonValue>
  {
    if |xs| > n then xs[..n] else xs
  }

  /** `', '.join(v[:5])`: at most five items, every one of which must be a string. */
  function JoinFirstFive(v: JsonValue): (r: Result<string, Fault>)
  {
    match v
    case JList(items) =>
      var five := Take(items, 5);
      if forall i :: 0 <= i < |five| ==> five[i].JStr? then
        Success(JoinSep(", ", seq(|five|, i requires 0 <= i < |five| => five[i].s)))
      else Failure(TypeFault("sequence item: expected str instance"))
    case JStr(s) => Success(JoinSep(", ", CharItems(PyTake(s, 5))))
    case _ => Failure(TypeFault("object is not subscriptable"))
  }

  /** A list of strings joins its first five items. */
  lemma JoinFirstFiveOfStrings(xs: seq<string>)
    ensures JoinFirstFive(JList(Strs(xs))) == Success(JoinSep(", ", if |xs| > 5 then xs[..5] else xs))
  {
    var five := Take(Strs(xs), 5);
    var ys := if |xs| > 5 then xs[..5] else xs;
    assert |five| == |ys|;
    assert forall i :: 0 <= i < |five| ==> five[i] == JStr(ys[i]);
    var texts := seq(|five|, i requires 0 <= i < |five| => five[i].s);
    assert forall i :: 0 <= i < |five| ==> texts[i] == ys[i];
    assert texts == ys;
    assert JoinFirstFive(JList(Strs(xs))) == Success(JoinSep(", ", texts));
  }

  /** Items after the fifth never reach the summary. */
  lemma JoinFirstFiveIgnoresTail(xs: seq<JsonValue>, ys: seq<JsonValue>)
    requires |xs| >= 5 && |ys| >= 5 && xs[..5] == ys[..5]
    ensures JoinFirstFive(JList(xs)) == JoinFirstFive(JList(ys))
  {
    assert Take(xs, 5) == Take(ys, 5);
  }

  /** The summary block of the `index`-th analysis (counted from 0, shown from 1). */
  function SummaryBlock(index: nat, a: Analysis, show: JsonValue -> string): Result<string, Fault>
  {
    var findings := JoinFirstFive(Get(a, "findings", JList([])));
    if findings.Failure? then Failure(findings.error)
    else
      var recs := JoinFirstFive(Get(a, "recommendations", JList([])));
      if recs.Failure? then Failure(recs.error)
      else Success(RenderSummary(index, a, show, findings.value, recs.value))
  }

  /** The text of a summary block, given its joined findings and recommendations. */
  function RenderSummary(index: nat, a: Analysis, show: JsonValue -> string, findings: string, recs: string): string
  {
    "\nDocument " + IntToString(index + 1) + ": " + Display(Get(a, "filename", JStr("Unknown")), show)
      + " (Type: " + Display(Get(a, "document_type", JStr("Unknown")), show) + ")\n- Risk Score: "
      + Display(Get(a, "risk_score", JStr("N/A")), show) + "/100\n- Risk Level: "
      + Display(Get(a, "risk_level", JStr("N/A")), show) + "\n- Findings: " + findings
      + "\n- Recommendations: " + recs + "\n"
  }

  /** The values of a list of outcomes, or the first failure among them: what a loop
      that appends each value and stops at the first exception ends with. */
  function Collect(rs: seq<Result<string, Fault>>): Result<seq<string>, Fault>
  {
    if rs == [] then Success([])
    else
      match Collect(rs[..|rs| - 1])
      case Failure(f) => Failure(f)
      case Success(prefix) =>
        if rs[|rs| - 1].Failure? then Failure(rs[|rs| - 1].error) else Success(prefix + [rs[|rs| - 1].value])
  }

  /** Collecting succeeds exactly when every outcome does, and then keeps every value in
      order. */
  lemma {:induction false} CollectAll(rs: seq<Result<string, Fault>>)
    ensures Collect(rs).Success? <==> forall i :: 0 <= i < |rs| ==> rs[i].Success?
    ensures Collect(rs).Success? ==> |Collect(rs).value| == |rs|
    ensures Collect(rs).Success? ==> forall i :: 0 <= i < |rs| ==> Collect(rs).value[i] == rs[i].value
  {
    if rs != [] {
      var init := rs[..|rs| - 1];
      CollectAll(init);
      assert forall i :: 0 <= i < |init| ==> init[i] == rs[i];
    }
  }

  /** Once a prefix has failed, the whole list fails the same way. */
  lemma {:induction false} CollectFailureStays(rs: seq<Result<string, Fault>>, n: nat)
    requires n <= |rs| && Collect(rs[..n]).Failure?
    ensures Collect(rs) == Collect(rs[..n])
    decreases |rs| - n
  {
    if n < |rs| {
      var longer := rs[..n + 1];
      assert longer[..n] == rs[..n];
      assert Collect(longer) == Collect(rs[..n]);
      CollectFailureStays(rs, n + 1);
    } else {
      assert rs[..n] == rs;
    }
  }

  /** The first failing outcome is the one reported. */
  lemma CollectFirstFailure(rs: seq<Result<string, Fault>>, k: nat)
    requires k < |rs| && rs[k].Failure?
    requires Collect(rs[..k]).Success?
    ensures Collect(rs) == Failure(rs[k].error)
  {
    var upTo := rs[..k + 1];
    assert upTo[..k] == rs[..k];
    assert Collect(upTo) == Failure(rs[k].error);
    CollectFailureStays(rs, k + 1);
  }

  /** The outcome of every summary block, in order. */
  function BlockOutcomes(analyses: seq<Analysis>, show: JsonValue -> string): seq<Result<string, Fault>>
  {
    seq(|analyses|, i requires 0 <= i < |analyses| => SummaryBlock(i, analyses[i], show))
  }

  /** The summaries of all analyses, or the fault of the first block that raises. */
  function Summaries(analyses: seq<Analysis>, show: JsonValue -> string): Result<seq<string>, Fault>
  {
    Collect(BlockOutcomes(analyses, show))
  }

  /** The summaries succeed exactly when every block does, and are then the blocks in
      order, one per analysis. */
  lemma SummariesBlocks(analyses: seq<Analysis>, show: JsonValue -> string)
    ensures var rs := BlockOutcomes(analyses, show);
      Summaries(analyses, show).Success? <==> forall i :: 0 <= i < |rs| ==> rs[i].Success?
    ensures Summaries(analyses, show).Success? ==> |Summaries(analyses, show).value| == |analyses|
    ensures var rs := BlockOutcomes(analyses, show);
      Summaries(analyses, show).Success? ==>
        forall i :: 0 <= i < |analyses| ==> Summaries(analyses, show).value[i] == rs[i].value
  {
    CollectAll(BlockOutcomes(analyses, show));
  }

  /** The summaries loop: one block per analysis, appended in order. */
  method BuildSummaries(analyses: seq<Analysis>, show: JsonValue -> string) returns (r: Result<seq<string>, Fault>)
    ensures r == Summaries(analyses, show)
  {
    ghost var rs := BlockOutcomes(analyses, show);
    var blocks: seq<string> := [];
    var i := 0;
    while i < |analyses|
      invariant 0 <= i <= |analyses|
      invariant Collect(rs[..i]) == Success(blocks)
    {
      var block := SummaryBlock(i, analyses[i], show);
      assert rs[..i + 1][..i] == rs[..i] && rs[i] == block;
      if block.Failure? {
        CollectFirstFailure(rs, i);
        return Failure(block.error);
      }
      blocks := blocks + [block.value];
      i := i + 1;
    }
    assert rs[..i] == rs;
    r := Success(blocks);
  }

  const ExcerptLength := 2000

  /** `text[:2000]`, followed by "..." when something was cut. */
  function Excerpt(text: string): (r: string)
    ensures |r| <= ExcerptLength + 3
    ensures |text| <= ExcerptLength ==> r == text
    ensures |text| > ExcerptLength ==> |r| == ExcerptLength + 3
    ensures |text| > ExcerptLength ==> StartsWith(r, text[..ExcerptLength]) && EndsWith(r, "...")
  {
    PyTake(text, ExcerptLength) + (if |text| > ExcerptLength then "..." else "")
  }

  function ExcerptBlock(doc: DocumentText): (r: string)
    ensures |r| <= |doc.filename| + ExcerptLength + 7
    ensures StartsWith(r, "\n" + doc.filename + ":\n")
    ensures StartsWith(r[|doc.filename| + 3..], PyTake(doc.text, ExcerptLength))
  {
    var head := "\n" + doc.filename + ":\n";
    var r := head + Excerpt(doc.text) + "\n";
    assert r[..|head|] == head;
    assert r[|head|..][..|PyTake(doc.text, ExcerptLength)|] == PyTake(doc.text, ExcerptLength);
    r
  }

  /** The excerpts loop: one block per document, in order. */
  method BuildExcerpts(docs: seq<DocumentText>) returns (blocks: seq<string>)
    ensures blocks == Excerpts(docs)
  {
    blocks := [];
    var i := 0;
    while i < |docs|
      invariant 0 <= i <= |docs|
      invariant |blocks| == i
      invariant forall j :: 0 <= j < i ==> blocks[j] == ExcerptBlock(docs[j])
    {
      blocks := blocks + [ExcerptBlock(docs[i])];
      i := i + 1;
    }
    assert blocks == Excerpts(docs);
  }

  /** The truncated texts: one block per document, in order, each the filename line
      followed by at most 2003 characters of the text, of which the first 2000 are the
      text's own. */
  function Excerpts(docs: seq<DocumentText>): (r: seq<string>)
    ensures |r| == |docs| && forall j :: 0 <= j < |docs| ==> r[j] == ExcerptBlock(docs[j])
    ensures forall j :: 0 <= j < |docs| ==>
      |r[j]| <= |docs[j].filename| + ExcerptLength + 7 &&
      StartsWith(r[j], "\n" + docs[j].filename + ":\n") &&
      StartsWith(r[j][|docs[j].filename| + 3..], PyTake(docs[j].text, ExcerptLength))
  {
    seq(|docs|, j requires 0 <= j < |docs| => ExcerptBlock(docs[j]))
  }

  /** A piece of a list is found in the joined list. */
  lemma {:induction false} JoinedContains(xs: seq<string>, k: nat, p: string)
    requires k < |xs| && Contains(xs[k], p)
    ensures Contains(JoinSep("", xs), p)
  {
    var i :| 0 <= i <= |xs[k]| && StartsWith(xs[k][i..], p);
    if k == 0 {
      var s := JoinSep("", xs);
      assert StartsWith(s[i..], p) by {
        if |xs| > 1 {
          assert s == xs[0] + JoinSep("", xs[1..]);
          assert s[i..][..|p|] == xs[0][i..][..|p|];
        }
      }
    } else {
      JoinedContains(xs[1..], k - 1, p);
      var rest := JoinSep("", xs[1..]);
      var j :| 0 <= j <= |rest| && StartsWith(rest[j..], p);
      var s := JoinSep("", xs);
      assert s == xs[0] + rest;
      assert s[|xs[0]| + j..] == rest[j..];
    }
  }

  /** The request the cross-document call sends, built from the summaries. */
  function RequestOf(vendorName: string, analyses: seq<Analysis>, summaries: seq<string>, docs: seq<DocumentText>)
    : SynthesisRequest
  {
    SynthesisRequest(vendorName, |analyses|, JoinSep("", summaries), JoinSep("", Excerpts(docs)))
  }

  /** The document texts are never sanitised: the first 2000 characters of every text
      reach the request verbatim, even a text that `sanitize_text` would reject. */
  lemma RawTextReachesRequest(vendorName: string, analyses: seq<Analysis>, summaries: seq<string>, docs: seq<DocumentText>, k: nat)
    requires k < |docs|
    ensures Contains(RequestOf(vendorName, analyses, summaries, docs).excerpts, PyTake(docs[k].text, ExcerptLength))
  {
    var block := ExcerptBlock(docs[k]);
    var pre := "\n" + docs[k].filename + ":\n";
    var taken := PyTake(docs[k].text, ExcerptLength);
    assert block == pre + Excerpt(docs[k].text) + "\n";
    assert block[|pre|..][..|taken|] == taken;
    JoinedContains(Excerpts(docs), k, taken);
  }

  // ---------------------------------------------------------------------------
  // analyze_all_documents: the three results
  // ---------------------------------------------------------------------------

  function MockComprehensive(vendorId: string, vendorName: string, analyses: seq<Analysis>): (r: ComprehensiveResult)
    ensures r.vendorId == vendorId && r.vendorName == vendorName
    ensures r.documentsAnalyzed == |analyses| && r.individualAnalyses == analyses
    ensures 0 <= r.overallRiskScore <= 100 && r.contradictions == []
  {
    ComprehensiveResult(
      vendorId, vendorName, 65, Medium, Conditional,
      "Mock analysis pending real AI configuration. Review required for production use.",
      |analyses|, analyses,
      ["Multiple documents uploaded for review", "Manual review recommended"],
      ["Configure Gemini API to enable real analysis"],
      [],
      ["Add GEMINI_API_KEY to .env file", "Perform manual cross-document review"])
  }

  /** A string-valued enumeration looked up from a decoded value. */
  function LevelOf(v: JsonValue): Result<RiskLevel, Fault>
  {
    if v.JStr? && ParseRiskLevel(v.s).Some? then Success(ParseRiskLevel(v.s).value)
    else Failure(TypeFault("is not a valid RiskLevel"))
  }

  function DecisionOf(v: JsonValue): Result<Decision, Fault>
  {
    if v.JStr? && ParseDecision(v.s).Some? then Success(ParseDecision(v.s).value)
    else Failure(TypeFault("is not a valid DecisionType"))
  }

  /** The four checked lists of a synthesis reply, in the source's order. */
  function CheckedLists(d: map<string, JsonValue>): (r: Result<seq<Checked>, Fault>)
    ensures r.Success? ==> |r.value| == 4
    ensures r.Success? ==>
      CheckItems(Get(d, "consolidated_findings", JList([]))) == Success(r.value[0]) &&
      CheckItems(Get(d, "cross_document_insights", JList([]))) == Success(r.value[1]) &&
      CheckItems(Get(d, "contradictions", JList([]))) == Success(r.value[2]) &&
      CheckItems(Get(d, "recommendations", JList([]))) == Success(r.value[3])
  {
    var cf := CheckItems(Get(d, "consolidated_findings", JList([])));
    if cf.Failure? then Failure(cf.error)
    else
      var ci := CheckItems(Get(d, "cross_document_insights", JList([])));
      if ci.Failure? then Failure(ci.error)
      else
        var co := CheckItems(Get(d, "contradictions", JList([])));
        if co.Failure? then Failure(co.error)
        else
          var re := CheckItems(Get(d, "recommendations", JList([])));
          if re.Failure? then Failure(re.error)
          else Success([cf.value, ci.value, co.value, re.value])
  }

  /** The `ComprehensiveAnalysisResult` built from a decoded synthesis reply. */
  function BuildComprehensive(vendorId: string, vendorName: string, analyses: seq<Analysis>, d: map<string, JsonValue>)
    : (r: Result<ComprehensiveResult, Fault>)
    ensures r.Success? ==> 0 <= r.value.overallRiskScore <= 100
    ensures r.Success? ==> |r.value.decisionJustification| <= ExcerptLength
    ensures r.Success? ==> r.value.documentsAnalyzed == |analyses| && r.value.individualAnalyses == analyses
    ensures r.Success? ==> r.value.vendorId == vendorId && r.value.vendorName == vendorName
    ensures LevelOf(Get(d, "overall_risk_level", JStr("Medium"))).Failure? ==> r.Failure?
    ensures DecisionOf(Get(d, "decision", JStr("Conditional"))).Failure? ==> r.Failure?
    ensures r.Success? ==> var score := ToInt(Get(d, "overall_risk_score", JInt(50)));
      score.Success? && r.value.overallRiskScore == Clamp(score.value)
    ensures r.Success? ==> LevelOf(Get(d, "overall_risk_level", JStr("Medium"))) == Success(r.value.overallRiskLevel)
    ensures r.Success? ==> DecisionOf(Get(d, "decision", JStr("Conditional"))) == Success(r.value.decision)
    ensures r.Success? ==> var j := Get(d, "decision_justification", JStr("Analysis completed"));
      j.JStr? && r.value.decisionJustification == PyTake(j.s, ExcerptLength)
    ensures r.Success? ==> CheckedLists(d) == Success([
      CheckedList(r.value.consolidatedFindings), CheckedList(r.value.crossDocumentInsights),
      CheckedList(r.value.contradictions), CheckedList(r.value.recommendations)])
  {
    var lists := CheckedLists(d);
    if lists.Failure? then Failure(lists.error)
    else
      var score := ToInt(Get(d, "overall_risk_score", JInt(50)));
      if score.Failure? then Failure(score.error)
      else
        var level := LevelOf(Get(d, "overall_risk_level", JStr("Medium")));
        if level.Failure? then Failure(level.error)
        else
          var decision := DecisionOf(Get(d, "decision", JStr("Conditional")));
          if decision.Failure? then Failure(decision.error)
          else
            var justification := Get(d, "decision_justification", JStr("Analysis completed"));
            var l := lists.value;
            if !justification.JStr? || !l[0].CheckedList? || !l[1].CheckedList? || !l[2].CheckedList? || !l[3].CheckedList? then
              Failure(TypeFault("validation error for ComprehensiveAnalysisResult"))
            else
              Success(ComprehensiveResult(
                vendorId, vendorName, Clamp(score.value), level.value, decision.value,
                PyTake(justification.s, ExcerptLength), |analyses|, analyses,
                l[0].items, l[1].items, l[2].items, l[3].items))
  }

  /** The `try` block of `analyze_all_documents`. */
  function SynthesisAttempt(
    vendorId: string, vendorName: string, analyses: seq<Analysis>, docs: seq<DocumentText>,
    complete: SynthesisRequest -> Reply, parse: Parser, show: JsonValue -> string)
    : (r: Result<ComprehensiveResult, Fault>)
    ensures r.Success? ==> r.value.documentsAnalyzed == |analyses| && r.value.individualAnalyses == analyses
    ensures r.Success? ==> r.value.vendorId == vendorId && r.value.vendorName == vendorName
    ensures r.Success? ==> 0 <= r.value.overallRiskScore <= 100
    ensures r.Success? ==> |r.value.decisionJustification| <= ExcerptLength
    ensures Summaries(analyses, show).Failure? ==> r == Failure(Summaries(analyses, show).error)
    ensures r.Success? ==> (
      Summaries(analyses, show).Success? &&
      var reply := complete(RequestOf(vendorName, analyses, Summaries(analyses, show).value, docs));
      reply.Success? &&
      var parsed := parse(CleanFences(Strip(reply.value)));
      parsed.Success? && parsed.value.JObject? &&
      r == BuildComprehensive(vendorId, vendorName, analyses, parsed.value.fields))
  {
    match Summaries(analyses, show)
    case Failure(f) => Failure(f)
    case Success(summaries) =>
      match complete(RequestOf(vendorName, analyses, summaries, docs))
      case Failure(msg) => Failure(ClientFault(msg))
      case Success(reply) =>
        match parse(CleanFences(Strip(reply)))
        case Failure(msg) => Failure(DecodeFault(msg))
        case Success(parsed) =>
          if !parsed.JObject? then Failure(TypeFault("object has no attribute 'get'"))
          else BuildComprehensive(vendorId, vendorName, analyses, parsed.fields)
  }

  /** `a.get('risk_score', 50)` as a number to add up; anything but an integer (a
      boolean counts as one) makes the sum raise. */
  function ScoreOf(a: Analysis): Result<int, Fault>
  {
    match ArithInt(Get(a, "risk_score", JInt(50)))
    case Some(i) => Success(i)
    case None => Failure(TypeFault("unsupported operand type(s) for +"))
  }

  function Scores(analyses: seq<Analysis>): (r: Result<seq<int>, Fault>)
    ensures r.Success? ==> |r.value| == |analyses|
    ensures r.Success? ==> forall i :: 0 <= i < |analyses| ==> ScoreOf(analyses[i]) == Success(r.value[i])
    ensures r.Failure? <==> exists i :: 0 <= i < |analyses| && ScoreOf(analyses[i]).Failure?
  {
    if analyses == [] then Success([])
    else if ScoreOf(analyses[0]).Failure? then Failure(ScoreOf(analyses[0]).error)
    else
      match Scores(analyses[1..])
      case Failure(f) =>
        assert exists i :: 0 <= i < |analyses[1..]| && ScoreOf(analyses[1..][i]).Failure?;
        Failure(f)
      case Success(rest) =>
        assert forall i :: 1 <= i < |analyses| ==> analyses[i] == analyses[1..][i - 1];
        Success([ScoreOf(analyses[0]).value] + rest)
  }

  function Sum(xs: seq<int>): int
  {
    if xs == [] then 0 else xs[0] + Sum(xs[1..])
  }

  /** `sum(xs) // len(xs)`, or 50 for no scores. */
  function FloorMean(xs: seq<int>): int
  {
    if xs == [] then 50 else Sum(xs) / |xs|
  }

  /** Every score bounds the sum: n·lo ≤ sum ≤ n·hi. */
  lemma {:induction false} SumBounds(xs: seq<int>, lo: int, hi: int)
    requires forall i :: 0 <= i < |xs| ==> lo <= xs[i] <= hi
    ensures |xs| * lo <= Sum(xs) <= |xs| * hi
  {
    if xs != [] {
      SumBounds(xs[1..], lo, hi);
      assert |xs| * lo == lo + (|xs| - 1) * lo;
      assert |xs| * hi == hi + (|xs| - 1) * hi;
    }
  }

  lemma MulMonotone(n: int, a: int, b: int)
    ensures n > 0 && a <= b ==> n * a <= n * b
  {
  }

  /** The floor mean lies between the smallest and the largest score. */
  lemma FloorMeanBetween(xs: seq<int>, lo: int, hi: int)
    requires xs != []
    requires forall i :: 0 <= i < |xs| ==> lo <= xs[i] <= hi
    ensures lo <= FloorMean(xs) <= hi
  {
    SumBounds(xs, lo, hi);
    var n := |xs|;
    var q := Sum(xs) / n;
    assert Sum(xs) == n * q + Sum(xs) % n;
    assert 0 <= Sum(xs) % n < n;
    MulMonotone(n, q + 1, lo);
    MulMonotone(n, hi + 1, q);
    assert n * (q + 1) == n * q + n;
    assert n * (hi + 1) == n * hi + n;
  }

  /** The level the fallback assigns: "Medium" below 70, "High" from 70 up. */
  function FallbackLevel(score: int): (l: RiskLevel)
    ensures l == Medium <==> score < 70
    ensures l != Low
  {
    if score < 70 then Medium else High
  }

  /** The `except` branch of `analyze_all_documents`. It raises only when a score cannot
      be added up. */
  function Fallback(vendorId: string, vendorName: string, analyses: seq<Analysis>, f: Fault)
    : (r: Result<ComprehensiveResult, Fault>)
    ensures r.Failure? <==> Scores(analyses).Failure?
    ensures r.Success? ==> r.value.decision == Conditional && r.value.overallRiskLevel != Low
    ensures r.Success? ==> (r.value.overallRiskLevel == Medium <==> r.value.overallRiskScore < 70)
    ensures r.Success? ==> r.value.documentsAnalyzed == |analyses| && r.value.individualAnalyses == analyses
    ensures r.Success? && analyses == [] ==> r.value.overallRiskScore == 50
    ensures r.Success? ==> r.value.vendorId == vendorId && r.value.vendorName == vendorName
    ensures r.Success? ==> r.value.overallRiskScore == FloorMean(Scores(analyses).value)
    ensures r.Success? ==> (r.value.decisionJustification ==
      "AI analysis encountered an error. Aggregated risk score: " + IntToString(r.value.overallRiskScore)
        + "/100. Manual review recommended.")
    ensures r.Success? ==> r.value.consolidatedFindings == ["AI synthesis error: " + FaultMessage(f)]
    ensures r.Success? ==> r.value.crossDocumentInsights == ["Manual cross-document review required"]
    ensures r.Success? ==> r.value.contradictions == []
    ensures r.Success? ==>
      r.value.recommendations == ["Retry comprehensive analysis", "Perform manual document comparison"]
  {
    match Scores(analyses)
    case Failure(e) => Failure(e)
    case Success(xs) =>
      var avg := FloorMean(xs);
      Success(ComprehensiveResult(
        vendorId, vendorName, avg, FallbackLevel(avg), Conditional,
        "AI analysis encountered an error. Aggregated risk score: " + IntToString(avg)
          + "/100. Manual review recommended.",
        |analyses|, analyses,
        ["AI synthesis error: " + FaultMessage(f)],
        ["Manual cross-document review required"],
        [],
        ["Retry comprehensive analysis", "Perform manual document comparison"]))
  }

  /** The fallback score, the floor mean of the scores (50 standing in for a missing
      one), lies between the smallest and the largest of them. */
  lemma FallbackScoreBetween(vendorId: string, vendorName: string, analyses: seq<Analysis>, f: Fault, lo: int, hi: int)
    requires analyses != [] && Scores(analyses).Success?
    requires forall i :: 0 <= i < |analyses| ==> lo <= Scores(analyses).value[i] <= hi
    ensures lo <= Fallback(vendorId, vendorName, analyses, f).value.overallRiskScore <= hi
  {
    FloorMeanBetween(Scores(analyses).value, lo, hi);
  }

  /** `analyze_all_documents`: the mock without a key, otherwise the synthesis, with the
      aggregated fallback for any fault. */
  function AnalyzeAllSpec(
    vendorId: string, vendorName: string, analyses: seq<Analysis>, docs: seq<DocumentText>,
    apiKey: Option<string>, complete: SynthesisRequest -> Reply, parse: Parser, show: JsonValue -> string)
    : (r: Result<ComprehensiveResult, Fault>)
    ensures r.Success? ==> r.value.documentsAnalyzed == |analyses| && r.value.individualAnalyses == analyses
    ensures r.Success? ==> r.value.vendorId == vendorId && r.value.vendorName == vendorName
    ensures r.Failure? ==> ModelConfigured(apiKey) && Scores(analyses).Failure?
    ensures !ModelConfigured(apiKey) ==> r == Success(MockComprehensive(vendorId, vendorName, analyses))
    ensures ModelConfigured(apiKey) ==>
      var attempt := SynthesisAttempt(vendorId, vendorName, analyses, docs, complete, parse, show);
      (attempt.Success? ==> r == attempt) &&
      (attempt.Failure? ==> r == Fallback(vendorId, vendorName, analyses, attempt.error))
  {
    if !ModelConfigured(apiKey) then Success(MockComprehensive(vendorId, vendorName, analyses))
    else
      match SynthesisAttempt(vendorId, vendorName, analyses, docs, complete, parse, show)
      case Success(c) => Success(c)
      case Failure(f) => Fallback(vendorId, vendorName, analyses, f)
  }

  /** The method: the two prompt-building loops, then the model call and the result. */
  method AnalyzeAllDocuments(
    vendorId: string, vendorName: string, analyses: seq<Analysis>, docs: seq<DocumentText>,
    apiKey: Option<string>, complete: SynthesisRequest -> Reply, parse: Parser, show: JsonValue -> string)
    returns (r: Result<ComprehensiveResult, Fault>)
    ensures r == AnalyzeAllSpec(vendorId, vendorName, analyses, docs, apiKey, complete, parse, show)
  {
    if !ModelConfigured(apiKey) {
      return Success(MockComprehensive(vendorId, vendorName, analyses));
    }
    var attempt: Result<ComprehensiveResult, Fault>;
    var summaries := BuildSummaries(analyses, show);
    if summaries.Failure? {
      attempt := Failure(summaries.error);
    } else {
      var excerpts := BuildExcerpts(docs);
      assert excerpts == Excerpts(docs);
      var request := SynthesisRequest(vendorName, |analyses|, JoinSep("", summaries.value), JoinSep("", excerpts));
      var reply := complete(request);
      if reply.Failure? {
        attempt := Failure(ClientFault(reply.error));
      } else {
        var parsed := parse(CleanFences(Strip(reply.value)));
        if parsed.Failure? {
          attempt := Failure(DecodeFault(parsed.error));
        } else if !parsed.value.JObject? {
          attempt := Failure(TypeFault("object has no attribute 'get'"));
        } else {
          attempt := BuildComprehensive(vendorId, vendorName, analyses, parsed.value.fields);
        }
      }
    }
    if attempt.Success? {
      r := attempt;
    } else {
      r := Fallback(vendorId, vendorName, analyses, attempt.error);
    }
  }

  /** Without a key the comprehensive result is the fixed mock: 65, "Medium", "Conditional". */
  lemma MockComprehensiveFixed(
    vendorId: string, vendorName: string, analyses: seq<Analysis>, docs: seq<DocumentText>,
    apiKey: Option<string>, complete: SynthesisRequest -> Reply, parse: Parser, show: JsonValue -> string)
    requires !ModelConfigured(apiKey)
    ensures var r := AnalyzeAllSpec(vendorId, vendorName, analyses, docs, apiKey, complete, parse, show);
      r.Success? && r.value.overallRiskScore == 65 && r.value.overallRiskLevel == Medium &&
      r.value.decision == Conditional && r.value.contradictions == []
  {
  }

  /** A level or decision outside the enumerations does not reach the result: it raises
      inside the `try` and the aggregated fallback is returned instead. */
  lemma UnknownEnumGivesFallback(
    vendorId: string, vendorName: string, analyses: seq<Analysis>, docs: seq<DocumentText>,
    apiKey: Option<string>, complete: SynthesisRequest -> Reply, parse: Parser, show: JsonValue -> string,
    d: map<string, JsonValue>)
    requires ModelConfigured(apiKey) && Summaries(analyses, show).Success?
    requires var request := RequestOf(vendorName, analyses, Summaries(analyses, show).value, docs);
      complete(request).Success? && parse(CleanFences(Strip(complete(request).value))) == Success(JObject(d))
    requires LevelOf(Get(d, "overall_risk_level", JStr("Medium"))).Failure? ||
             DecisionOf(Get(d, "decision", JStr("Conditional"))).Failure?
    ensures var r := AnalyzeAllSpec(vendorId, vendorName, analyses, docs, apiKey, complete, parse, show);
      r == Fallback(vendorId, vendorName, analyses, BuildComprehensive(vendorId, vendorName, analyses, d).error)
  {
  }

  /** A decoded synthesis reply whose four lists are accepted lists of strings, whose
      score is an integer and whose level and decision are enumeration values gives the
      result built from exactly those: the clamped score, the level and the decision the
      model chose, the justification cut to 2000 characters and the kept lists. */
  lemma SynthesisReplyCopied(
    vendorId: string, vendorName: string, analyses: seq<Analysis>, d: map<string, JsonValue>,
    findings: seq<string>, insights: seq<string>, contradictions: seq<string>, recs: seq<string>,
    score: int, level: RiskLevel, decision: Decision, justification: string)
    requires Get(d, "consolidated_findings", JList([])) == JList(Strs(findings))
    requires Get(d, "cross_document_insights", JList([])) == JList(Strs(insights))
    requires Get(d, "contradictions", JList([])) == JList(Strs(contradictions))
    requires Get(d, "recommendations", JList([])) == JList(Strs(recs))
    requires PromptInjection.CheckFindings(findings).Success? && PromptInjection.CheckFindings(insights).Success?
    requires PromptInjection.CheckFindings(contradictions).Success? && PromptInjection.CheckFindings(recs).Success?
    requires Get(d, "overall_risk_score", JInt(50)) == JInt(score)
    requires Get(d, "overall_risk_level", JStr("Medium")) == JStr(RiskLevelValue(level))
    requires Get(d, "decision", JStr("Conditional")) == JStr(DecisionValue(decision))
    requires Get(d, "decision_justification", JStr("Analysis completed")) == JStr(justification)
    ensures BuildComprehensive(vendorId, vendorName, analyses, d) == Success(ComprehensiveResult(
      vendorId, vendorName, Clamp(score), level, decision, PyTake(justification, ExcerptLength),
      |analyses|, analyses, PromptInjection.Kept(findings), PromptInjection.Kept(insights),
      PromptInjection.Kept(contradictions), PromptInjection.Kept(recs)))
  {
    CheckItemsOfStrings(findings);
    CheckItemsOfStrings(insights);
    CheckItemsOfStrings(contradictions);
    CheckItemsOfStrings(recs);
    EnumValuesRoundTrip(level, decision);
  }

  /** With a key set, a reply that decodes to an object the result model accepts is
      returned as built; the fallback is not used. */
  lemma SynthesisResultReturned(
    vendorId: string, vendorName: string, analyses: seq<Analysis>, docs: seq<DocumentText>,
    apiKey: Option<string>, complete: SynthesisRequest -> Reply, parse: Parser, show: JsonValue -> string,
    d: map<string, JsonValue>)
    requires ModelConfigured(apiKey) && Summaries(analyses, show).Success?
    requires var request := RequestOf(vendorName, analyses, Summaries(analyses, show).value, docs);
      complete(request).Success? && parse(CleanFences(Strip(complete(request).value))) == Success(JObject(d))
    requires BuildComprehensive(vendorId, vendorName, analyses, d).Success?
    ensures AnalyzeAllSpec(vendorId, vendorName, analyses, docs, apiKey, complete, parse, show) ==
      BuildComprehensive(vendorId, vendorName, analyses, d)
  {
  }

  /** `//` on a positive count is floor division: n·mean ≤ sum < n·(mean + 1). */
  lemma FloorMeanIsFloor(xs: seq<int>)
    requires xs != []
    ensures |xs| * FloorMean(xs) <= Sum(xs) < |xs| * (FloorMean(xs) + 1)
  {
    var n, q := |xs|, FloorMean(xs);
    assert Sum(xs) == n * q + Sum(xs) % n;
    assert n * (q + 1) == n * q + n;
  }

  /** The aggregated fallback's score is the floor of the mean of the readable scores. */
  lemma FallbackIsFloorMean(vendorId: string, vendorName: string, analyses: seq<Analysis>, f: Fault)
    requires analyses != [] && Scores(analyses).Success?
    ensures var score := Fallback(vendorId, vendorName, analyses, f).value.overallRiskScore;
      var xs := Scores(analyses).value;
      |xs| * score <= Sum(xs) < |xs| * (score + 1)
  {
    var xs := Scores(analyses).value;
    FloorMeanIsFloor(xs);
  }
}
