/** The application settings and the two values derived from them. Reading the
    environment and the `.env` file, and pydantic's conversion of its text to booleans
    and integers, are left out: the settings are given. */
module Config {
  import opened Strings
  import FileValidation
  import StorageService

  datatype Settings = Settings(
    appName: string,
    appVersion: string,
    environment: string,
    debug: bool,
    secretKey: string,
    allowedOrigins: string,
    storagePath: string,
    storageType: string,
    maxFileSize: int,
    airtableApiKey: string,
    airtableBaseId: string,
    geminiApiKey: string,
    rateLimitEnabled: bool,
    logLevel: string,
    auditLogEnabled: bool)

  /** The settings when no variable is set. */
  const DefaultSettings := Settings(
    "TPRM Agent API", "1.1.0", "development", false, "change-me-in-production",
    "http://localhost:3000", "./uploads", "local", 10485760, "", "", "", true, "INFO", true)

  /** `is_production`: exact, case-sensitive comparison. */
  predicate IsProduction(s: Settings)
  {
    s.environment == "production"
  }

  /** `cors_origins`: the comma-separated pieces, each stripped, in order. */
  function CorsOrigins(s: Settings): (r: seq<string>)
    ensures |r| == |Split(s.allowedOrigins, ",")|
    ensures forall k :: 0 <= k < |r| ==> r[k] == Strip(Split(s.allowedOrigins, ",")[k])
    ensures |r| == CountChar(s.allowedOrigins, ',') + 1
    ensures forall k :: 0 <= k < |r| ==> r[k] == [] || (!IsSpace(r[k][0]) && !IsSpace(r[k][|r[k]| - 1]))
    ensures forall k :: 0 <= k < |r| ==> !ContainsChar(r[k], ',')
  {
    var pieces := Split(s.allowedOrigins, ",");
    SplitCharCount(s.allowedOrigins, ',');
    var r := seq(|pieces|, k requires 0 <= k < |pieces| => Strip(pieces[k]));
    assert forall k :: 0 <= k < |r| ==> !ContainsChar(r[k], ',') by {
      forall k | 0 <= k < |r| ensures !ContainsChar(r[k], ',') { StripKeepsAbsent(pieces[k], ','); }
    }
    r
  }

  lemma DefaultsIsNotProduction()
    ensures !IsProduction(DefaultSettings)
    ensures IsProduction(DefaultSettings.(environment := "production"))
    ensures !IsProduction(DefaultSettings.(environment := "Production"))
  {
  }

  /** A setting without a comma is one origin, stripped; an empty setting gives one
      empty origin. */
  lemma SingleOrigin(s: Settings)
    requires !ContainsChar(s.allowedOrigins, ',')
    ensures CorsOrigins(s) == [Strip(s.allowedOrigins)]
    ensures s.allowedOrigins == "" ==> CorsOrigins(s) == [""]
  {
    CountCharAbsent(s.allowedOrigins, ',');
  }

  /** When no origin was written with surrounding whitespace, joining the list with
      commas gives the setting back. */
  lemma CorsOriginsRoundTrip(s: Settings)
    requires forall k :: 0 <= k < |Split(s.allowedOrigins, ",")| ==> Strip(Split(s.allowedOrigins, ",")[k]) == Split(s.allowedOrigins, ",")[k]
    ensures JoinSep(",", CorsOrigins(s)) == s.allowedOrigins
  {
    assert CorsOrigins(s) == Split(s.allowedOrigins, ",");
    JoinSplit(s.allowedOrigins, ",");
  }

  /** The configured defaults agree with the constants the upload check and the store
      use on their own. */
  lemma DefaultsAgree()
    ensures DefaultSettings.maxFileSize == FileValidation.MaxFileSize == 10 * 1024 * 1024
    ensures DefaultSettings.storagePath == StorageService.DefaultStoragePath
    ensures DefaultSettings.storageType == "local"
  {
  }
}
