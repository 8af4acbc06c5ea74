/** The records the analysis service produces, and the two enumerations whose string
    values travel through JSON. */
module Models {
  import opened Wrappers
  import opened Json

  /** A decoded per-document analysis as the comprehensive analysis receives it. */
  type Analysis = map<string, JsonValue>

  /** `AnalysisResult`: the assessment of one document. */
  datatype AnalysisResult = AnalysisResult(
    riskScore: int,
    riskLevel: string,
    findings: seq<string>,
    recommendations: seq<string>)

  /** `RiskLevel`, a string-valued enumeration. */
  datatype RiskLevel = Low | Medium | High

  /** `DecisionType`, a string-valued enumeration. */
  datatype Decision = Go | Conditional | NoGo

  function RiskLevelValue(l: RiskLevel): string
  {
    match l
    case Low => "Low"
    case Medium => "Medium"
    case High => "High"
  }

  function DecisionValue(d: Decision): string
  {
    match d
    case Go => "Go"
    case Conditional => "Conditional"
    case NoGo => "No-Go"
  }

  /** `RiskLevel(s)`: the member whose value is exactly `s`, if there is one. */
  function ParseRiskLevel(s: string): (r: Option<RiskLevel>)
    ensures r.Some? ==> RiskLevelValue(r.value) == s
    ensures r.None? ==> s != "Low" && s != "Medium" && s != "High"
  {
    if s == "Low" then Some(Low)
    else if s == "Medium" then Some(Medium)
    else if s == "High" then Some(High)
    else None
  }

  /** `DecisionType(s)`: the member whose value is exactly `s`, if there is one. */
  function ParseDecision(s: string): (r: Option<Decision>)
    ensures r.Some? ==> DecisionValue(r.value) == s
    ensures r.None? ==> s != "Go" && s != "Conditional" && s != "No-Go"
  {
    if s == "Go" then Some(Go)
    else if s == "Conditional" then Some(Conditional)
    else if s == "No-Go" then Some(NoGo)
    else None
  }

  /** Every member is found again from its value. */
  lemma EnumValuesRoundTrip(l: RiskLevel, d: Decision)
    ensures ParseRiskLevel(RiskLevelValue(l)) == Some(l)
    ensures ParseDecision(DecisionValue(d)) == Some(d)
  {
  }

  /** `ComprehensiveAnalysisResult`, without its clock fields `analysis_date` and
      `processing_time_seconds`. */
  datatype ComprehensiveResult = ComprehensiveResult(
    vendorId: string,
    vendorName: string,
    overallRiskScore: int,
    overallRiskLevel: RiskLevel,
    decision: Decision,
    decisionJustification: string,
    documentsAnalyzed: nat,
    individualAnalyses: seq<Analysis>,
    consolidatedFindings: seq<string>,
    crossDocumentInsights: seq<string>,
    contradictions: seq<string>,
    recommendations: seq<string>)
}
