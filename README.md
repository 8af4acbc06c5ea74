# TPRM agent backend core in Dafny

This project models the core of the backend of a third-party risk management
(TPRM) agent. The agent takes vendor documents (SOC 2 reports, penetration
tests, compliance papers), asks a language model to analyse them, and keeps
the results. The model covers the following parts:

- **Prompt-injection guard** (`PromptInjection`). Text sent to the model is
  rejected when it is empty, longer than 100000 characters, or matches one of
  fourteen dangerous patterns. Otherwise its whitespace runs are collapsed.
  The language model's findings are capped at 50 and rejected as a whole when one of
  them matches a pattern. Each pattern is a small shape of literals and
  whitespace classes, matched the way `re.search` matches it.
- **AI service** (`AiService`). This covers the code-fence cleaner, the
  0..100 clamp, every branch of single-document analysis (mock, reply
  copied, fallback on any error) and the per-document summary and excerpt
  builders. It also covers every branch of cross-document synthesis:
  - the mock result;
  - the synthesised result;
  - the aggregated fallback, with its floor mean.
- **Upload validation** (`FileValidation`). Uploads are checked in order:
  name, characters, extension, emptiness, size, MIME type, MIME/extension
  agreement. Filenames are sanitised by taking the last path part,
  replacing dangerous substrings one kind at a time, and truncating while
  keeping the suffix.
- **File storage** (`StorageService`). This covers the stored name and URL,
  resolving a URL back to a path, deletion, and the factory that picks a
  backend from the environment.
- **Assessment storage** (`AssessmentStorage`). This covers:
  - the timestamp filename;
  - the enum-to-string step before saving;
  - loading every readable file, tagged with its path;
  - the vendor summary, with its risk trend.
- **Airtable documents** (`DocumentAirtable`). This covers mapping a record
  to a document, the per-vendor filter, and the mock create and update.
- **Settings** (`Config`). This covers `is_production` and the CORS origin
  list.

Helper modules model the Python built-ins the core relies on:
- `Strings`: `str.lower`, `strip`, `split`, `join`, `replace`, `in`.
- `PurePaths`: `pathlib.PurePosixPath`.
- `PyInt`: `int()` on strings and floats.
- `Json`: the JSON values `json.loads` produces.
- `Models`: the `RiskLevel` and `DecisionType` enums and the result records.
- `Http`: `HTTPException`.
- `Wrappers`: `Option` and `Result`.

Everything the core gets from outside is a parameter of the model:
- the language model's reply, `json.loads`, `python-magic`'s MIME guess;
- `uuid4`, `hash`, the clock (`datetime.now`, `datetime.fromisoformat`);
- the environment, and the filesystem's `exists`, `unlink` and JSON files
  read;
- the Airtable table's records.

Exceptions the core raises or catches become `Result` values. Every branch
that catches them is modelled as a case on those values.

Some behaviour of the code differs from what the repository's documentation
describes. The model follows the code:
- Over-long text is rejected with status 413, not truncated.
- Suspicious model output rejects the whole analysis, which then falls back.
  It is not filtered item by item.
- The single-document `risk_level` is copied from the reply as given.
- No decision rule is computed: the Go/Conditional/No-Go thresholds are
  only prose in the prompt.
- Document excerpts reach the synthesis prompt without going through the
  injection guard (`AiService.RawTextReachesRequest`).

Two consequences of the code are proved as they stand:
- The `ENDOFINPUT` pattern is searched for in lower-cased text, so it can
  never fire (`PromptInjection.EndOfInputNeverFires`).
- Truncating a long sanitised filename can create a `..` that the name did
  not contain (`FileValidation.TruncationCanReintroduceDoubleDot`).

## Model

| member | source | states |
|---|---|---|
| PromptInjection.SanitizeText | backend/app/security/prompt_injection.py:50-75 | the loop over the patterns computes exactly the sanitising function: the first of empty/too long/suspicious that applies, else the collapsed text |
| PromptInjection.SanitizeSpec | backend/app/security/prompt_injection.py:50-75 | the checks of `sanitize_text` in order; its properties are stated by `EmptyRejectedFirst`, `LengthCap`, `PatternRejection` and `CaseInsensitive` |
| PromptInjection.EmptyRejectedFirst | backend/app/security/prompt_injection.py:50-54 | empty text is rejected with status 400 before any other check |
| PromptInjection.LengthCap | backend/app/security/prompt_injection.py:57-61 | text longer than 100000 characters is rejected with the "too long" error, and text within the limit never is |
| PromptInjection.PatternRejection | backend/app/security/prompt_injection.py:63-75 | for non-empty text within the limit, sanitising fails if and only if some pattern matches; a match gives the injection error, otherwise the result is the whitespace-collapsed text |
| PromptInjection.CaseInsensitive | backend/app/security/prompt_injection.py:64-70 | two texts with the same lower-case form are rejected alike and with the same error |
| PromptInjection.UpperLiteralNeverMatches | backend/app/security/prompt_injection.py:27 | a literal with an upper-case letter never matches text without upper-case letters |
| PromptInjection.EndOfInputNeverFires | backend/app/security/prompt_injection.py:64-66 | the `ENDOFINPUT` pattern never matches lower-cased text (with line 27) |
| PromptInjection.IgnoreAllPreviousMatches | backend/app/security/prompt_injection.py:17 | the first pattern matches text starting with "ignore all previous instructions" |
| PromptInjection.IgnoreAllPreviousRejected | backend/app/security/prompt_injection.py:63-70 | any text whose lower-case form contains "ignore all previous instructions" somewhere is rejected as an injection (with line 17) |
| PromptInjection.CollapseNormalizes | backend/app/security/prompt_injection.py:73 | collapsing leaves no whitespace other than single inner spaces, keeps every non-space character in order, and never lengthens |
| PromptInjection.CollapseIdempotent | backend/app/security/prompt_injection.py:73 | collapsing twice is collapsing once |
| PromptInjection.CollapseRunsShape | backend/app/security/prompt_injection.py:73 | replacing whitespace runs leaves only single spaces and keeps the non-space characters |
| PromptInjection.StripShape | backend/app/security/prompt_injection.py:73 | stripping a run-collapsed string leaves a normalised string with the same non-space characters |
| PromptInjection.ValidateFindings | backend/app/security/prompt_injection.py:92-103 | the capped check loop computes exactly the findings check |
| PromptInjection.CheckFindings | backend/app/security/prompt_injection.py:92-103 | the findings check; its properties are stated by `FindingsResultShape`, `FindingsRejectionIff`, `FindingsTailIgnored` and `FindingsIdempotent` |
| PromptInjection.FindingsResultShape | backend/app/security/prompt_injection.py:92-93 | an accepted list is the first min(n, 50) findings; a rejection carries status 500 (with line 103) |
| PromptInjection.FindingsRejectionIff | backend/app/security/prompt_injection.py:96-101 | findings are rejected if and only if one of the first 50 is suspicious |
| PromptInjection.FindingsTailIgnored | backend/app/security/prompt_injection.py:92-93 | lists that agree on their first 50 findings get the same outcome |
| PromptInjection.FindingsIdempotent | backend/app/security/prompt_injection.py:92-103 | checking an accepted list again gives the same result |
| AiService.CleanFences | backend/app/services/ai_service.py:69-76 | the cleaned reply is no longer than the input and has no whitespace at either end |
| AiService.FenceFreeUnchanged | backend/app/services/ai_service.py:69-76 | a stripped reply without fences is left unchanged |
| AiService.JsonFenceCleaned | backend/app/services/ai_service.py:70-76 | a reply wrapped in a ```json fence and a closing fence yields its stripped body |
| AiService.Clamp | backend/app/services/ai_service.py:87 | the result lies in [0, 100], equals the input inside that range, and is 0 below and 100 above |
| AiService.ToInt | backend/app/services/ai_service.py:87 | integers convert to themselves, booleans to 1 and 0, floats to their truncation toward zero; null, lists and objects fail; a string converts exactly when `int()` accepts it, to the value it reads |
| AiService.ScanItems | backend/app/services/ai_service.py:82-83 | a scan succeeds only on a list of strings none of which is suspicious, and returns those strings |
| AiService.CheckItems | backend/app/services/ai_service.py:82-83 | an accepted list has at most 50 items, none suspicious; a dict of at most 50 keys is rejected with the 500 message exactly when one of its keys is suspicious; a larger dict, null, a boolean or a number is a type error; a string passes the guard (with prompt_injection.py lines 92-103) |
| AiService.ScanStrings | backend/app/services/ai_service.py:82-83 | a list of strings is rejected with the output-rejected error exactly when one of them is suspicious |
| AiService.CheckItemsOfStrings | backend/app/services/ai_service.py:82-83 | for a list of strings, the findings check of the reply agrees with the injection guard's findings check |
| AiService.BuildAnalysis | backend/app/services/ai_service.py:82-91 | it succeeds exactly when both lists pass the findings check as lists, `int()` reads the score (default 50) and the level (default "Medium") is a string; the result holds the clamped `int()` value, that level and the checked lists, and a rejected list fails with the check's error, findings first |
| AiService.AnalysisAttempt | backend/app/services/ai_service.py:42-91 | a failed model call is a client fault and an undecodable reply a decode fault; a success means the model replied, the fence-cleaned reply decoded to an object and the result was built from it |
| AiService.AnalyzeText | backend/app/services/ai_service.py:22-101 | analysis fails exactly when sanitising fails, with the sanitiser's error; any result has a score in [0, 100] |
| AiService.MockModeFixed | backend/app/services/ai_service.py:25-40 | without an API key, accepted text gives the fixed mock result (score 75, "High") |
| AiService.ReplyCopiedIntoResult | backend/app/services/ai_service.py:79-91 | a reply with clean string lists, a score `int()` reads (integer, boolean, float or decimal string) and a string level yields the clamped score, that level and the first 50 findings and recommendations |
| AiService.FaultGivesFallback | backend/app/services/ai_service.py:93-101 | any failure of the model call, parse or checks gives score 50, "Medium", the error message as the finding and the retry recommendation |
| AiService.SuspiciousFindingGivesFallback | backend/app/services/ai_service.py:93-101 | a suspicious finding in the reply turns into the fallback result carrying the 500 rejection message (with line 82) |
| AiService.RejectionMessage | backend/app/services/ai_service.py:99 | the fallback message for a rejected reply is "500: " followed by the rejection detail |
| AiService.BadReplyGivesFallback | backend/app/services/ai_service.py:93-101 | an unparsable reply or a score `int()` refuses gives the 50/"Medium" fallback with one finding and one recommendation (with lines 79, 87) |
| AiService.JoinFirstFiveOfStrings | backend/app/services/ai_service.py:160-161 | a list of strings is shown as its first five items joined with ", " |
| AiService.JoinFirstFiveIgnoresTail | backend/app/services/ai_service.py:160-161 | lists that agree on their first five items are shown alike |
| AiService.CollectAll | backend/app/services/ai_service.py:154-162 | collecting block outcomes succeeds if and only if every block does, and then returns the blocks in order |
| AiService.CollectFailureStays | backend/app/services/ai_service.py:154-162 | once a prefix of blocks has failed, later blocks do not change the outcome |
| AiService.CollectFirstFailure | backend/app/services/ai_service.py:154-162 | the first failing block's error is the error of the whole summary step |
| AiService.SummariesBlocks | backend/app/services/ai_service.py:154-162 | the summaries succeed exactly when every block does, and are then one block per analysis, in order |
| AiService.BuildSummaries | backend/app/services/ai_service.py:154-162 | the summary loop computes exactly the summaries function, stopping at the first failing block |
| AiService.Summaries | backend/app/services/ai_service.py:154-162 | the per-analysis summary blocks; `SummariesBlocks` states that they succeed exactly when every block does, one block per analysis in order |
| AiService.Excerpt | backend/app/services/ai_service.py:169 | a text of at most 2000 characters is kept as is; a longer one becomes its first 2000 characters followed by "...", 2003 in all |
| AiService.BuildExcerpts | backend/app/services/ai_service.py:165-170 | the excerpt loop yields one block per document, in order, each beginning with its filename header and the first 2000 characters of its text |
| AiService.Excerpts | backend/app/services/ai_service.py:165-170 | one block per document, in order; each begins with a newline, the filename and ":\n", continues with the first 2000 characters of the text, and is at most the filename plus 2007 characters long |
| AiService.JoinedContains | backend/app/services/ai_service.py:180 | a substring of one joined block is a substring of the joined text |
| AiService.RawTextReachesRequest | backend/app/services/ai_service.py:165-180 | the first 2000 characters of every document's raw text appear in the synthesis request, unguarded |
| AiService.BuildComprehensive | backend/app/services/ai_service.py:221-249 | a synthesised result holds the clamped `int()` of "overall_risk_score" (default 50), the enum values of the level (default "Medium") and decision (default "Conditional"), the first 2000 characters of a string justification (default "Analysis completed"), the four lists as accepted by the findings check, and the given vendor and analyses; an unknown level or decision, an unreadable score or a rejected list makes it fail |
| AiService.SynthesisAttempt | backend/app/services/ai_service.py:206-249 | a failed summary is passed on; a success means the summaries were built, the model replied, the fence-cleaned reply decoded to an object and the result is that object turned into a comprehensive result |
| AiService.SynthesisReplyCopied | backend/app/services/ai_service.py:221-249 | a reply object whose lists are clean strings and whose score, level, decision and justification are well-typed gives exactly the comprehensive result holding the clamped score, those enums, the cut justification and the lists |
| AiService.SynthesisResultReturned | backend/app/services/ai_service.py:206-249 | with a model key, when the summaries build, the reply decodes to an object and that object converts, the synthesis result is what the service returns |
| AiService.Scores | backend/app/services/ai_service.py:254 | the scores succeed exactly when every analysis has a usable score, and are then those scores in order |
| AiService.SumBounds | backend/app/services/ai_service.py:254 | a sum of n values in [lo, hi] lies in [n·lo, n·hi] |
| AiService.FloorMeanBetween | backend/app/services/ai_service.py:254 | the floor mean of a non-empty list lies between its lower and upper bounds |
| AiService.FallbackLevel | backend/app/services/ai_service.py:260 | the level is Medium exactly when the score is below 70, and is never Low |
| AiService.Fallback | backend/app/services/ai_service.py:251-271 | the fallback fails only when a score cannot be read; otherwise its score is the floor mean of the scores (50 for none), with Conditional, Medium exactly below 70 (else High), the "Aggregated risk score: N/100" justification, the error finding, the manual-review insight, no contradictions, the two retry recommendations, and the vendor and analyses kept |
| AiService.FallbackScoreBetween | backend/app/services/ai_service.py:254 | the fallback score, the floor mean of the scores, lies within any bounds the individual scores share (with line 259) |
| AiService.FloorMeanIsFloor | backend/app/services/ai_service.py:254 | `sum // len` of a non-empty list is the floor of the mean: n·q ≤ sum below n·(q + 1) |
| AiService.FallbackIsFloorMean | backend/app/services/ai_service.py:251-256 | with at least one readable analysis, the fallback score q satisfies n·q ≤ sum of the scores below n·(q + 1) |
| AiService.AnalyzeAllSpec | backend/app/services/ai_service.py:103-271 | without a model key the result is the mock result; with one, a successful synthesis is returned as it is and a failed one gives the aggregated fallback for its error; any result keeps the vendor and the analyses |
| AiService.AnalyzeAllDocuments | backend/app/services/ai_service.py:103-271 | the loops compute exactly the cross-document analysis function |
| AiService.MockComprehensiveFixed | backend/app/services/ai_service.py:125-150 | without an API key, the result is score 65, Medium, Conditional, with no contradictions |
| AiService.MockComprehensive | backend/app/services/ai_service.py:125-150 | the mock result keeps the vendor, the analyses and their count, has a score in [0, 100] and no contradictions; `MockComprehensiveFixed` gives its fixed 65/Medium/Conditional values |
| AiService.UnknownEnumGivesFallback | backend/app/services/ai_service.py:251-271 | a reply whose level or decision is not an enum value gives the aggregated fallback (with lines 238-239) |
| Models.ParseRiskLevel | backend/app/services/ai_service.py:238 | a parsed level's value is the input string; only "Low", "Medium" and "High" parse |
| Models.ParseDecision | backend/app/services/ai_service.py:239 | a parsed decision's value is the input string; only "Go", "Conditional" and "No-Go" parse |
| Models.EnumValuesRoundTrip | backend/app/services/assessment_storage_service.py:50-51 | every level and decision parses back from its value |
| Json.Get | backend/app/services/ai_service.py:82-88 | `dict.get` returns the stored value for a present key and the default otherwise |
| FileValidation.ValidateUpload | backend/app/security/file_validation.py:37-98 | an accepted upload has an acceptable, clean name, non-empty contents of at most 10 MB returned unchanged, an allowed extension, and a known MIME type mapping to that extension; every error is 400, or 413 for oversized contents |
| FileValidation.ValidUploadAccepted | backend/app/security/file_validation.py:37-98 | an upload passing every condition is accepted with its contents and lower-cased extension |
| FileValidation.NameCheckedFirst | backend/app/security/file_validation.py:37-48 | a missing, over-long or unclean name is rejected with a name error, whatever the contents and MIME type |
| FileValidation.ExtensionCheckedBeforeContents | backend/app/security/file_validation.py:51-56 | an unsupported extension is rejected with 400 whatever the contents and MIME type |
| FileValidation.SizeCheckedBeforeType | backend/app/security/file_validation.py:62-69 | empty contents give "File is empty" and oversized contents the 413 error, whatever the MIME guess |
| FileValidation.LimitLength | backend/app/security/file_validation.py:120-125 | a name of at most 255 characters is returned unchanged |
| FileValidation.SanitizeFilename | backend/app/security/file_validation.py:112-127 | the replacement loop computes exactly the sanitised name |
| FileValidation.Sanitized | backend/app/security/file_validation.py:112-127 | the sanitised name; its properties are stated by `SanitizedHasNoDangerousChars`, `LimitLengthShape`, `LimitLengthParts` and `SanitizedNoDoubleDotWithoutTruncation` |
| FileValidation.ReplaceOneChar | backend/app/security/file_validation.py:116-117 | replacing one character by another keeps the length and changes exactly the occurrences |
| FileValidation.ReplaceKeepsAbsent | backend/app/security/file_validation.py:116-117 | a replacement introduces no character that neither the text nor the replacement holds |
| FileValidation.ReplaceDotsClears | backend/app/security/file_validation.py:115-117 | replacing ".." leaves no ".." |
| FileValidation.ReplaceOneKeepsNoDoubleDot | backend/app/security/file_validation.py:115-117 | replacing a non-dot character keeps a text free of ".." |
| FileValidation.ReplaceUpToClears | backend/app/security/file_validation.py:115-117 | after the first k replacements, no ".." and none of the first k-1 single characters remain |
| FileValidation.LimitLengthParts | backend/app/security/file_validation.py:120-125 | an over-long name becomes its stem cut to 255 minus the suffix length, followed by the suffix |
| FileValidation.LimitLengthKeepsAbsent | backend/app/security/file_validation.py:120-125 | truncation introduces no new character |
| FileValidation.LimitLengthShape | backend/app/security/file_validation.py:120-125 | a short name is unchanged; a long one keeps its suffix and is exactly 255 characters when the suffix fits |
| FileValidation.SanitizedHasNoDangerousChars | backend/app/security/file_validation.py:112-127 | a sanitised name contains none of `/ \ < > : " \| ? *` |
| FileValidation.SanitizedNoDoubleDotWithoutTruncation | backend/app/security/file_validation.py:112-127 | a sanitised name that needed no truncation contains no ".." |
| FileValidation.TruncationCanReintroduceDoubleDot | backend/app/security/file_validation.py:120-125 | a 265-character name without ".." is truncated to a name with ".." |
| StorageService.Getenv | backend/app/services/storage_service.py:40-41 | `os.getenv` returns the set value, or the default when unset (with line 119) |
| StorageService.NewLocalStorage | backend/app/services/storage_service.py:39-41 | the storage path is STORAGE_PATH when that variable is set and "./uploads" otherwise; the base URL is BASE_URL when set and "http://localhost:8000" otherwise |
| StorageService.GetStorageService | backend/app/services/storage_service.py:117-126 | a local storage is returned exactly for STORAGE_TYPE "local" (the default), "gcs" gives the not-implemented error, and every other value a ValueError |
| StorageService.EmptyEnvGivesLocalDefaults | backend/app/services/storage_service.py:117-122 | with nothing set, the service is local storage under "./uploads" served from "http://localhost:8000" (with lines 40-41) |
| StorageService.StoredName | backend/app/services/storage_service.py:49-50 | the stored name is vendor id, "_", uuid, then the original suffix, and nothing else |
| StorageService.FileUrl | backend/app/services/storage_service.py:63 | the URL starts with base URL + "/files/" + vendor id + "/", ends with the stored name, and is exactly as long as those two together |
| StorageService.SaveFile | backend/app/services/storage_service.py:46-65 | the returned path is the storage path joined with vendor id and stored name, and the URL the file URL of that name; when vendor id and uuid hold no slash, the path ends with the stored name and the URL with "/" and the stored name |
| StorageService.StoredPath | backend/app/services/storage_service.py:53-57 | the path storage path / vendor id / name ends with the name whenever the name is a proper slash-free part |
| StorageService.EmptyVendorEscapesStorage | backend/app/services/storage_service.py:63-75 | with an empty vendor id the URL ".../files//name" still resolves, but to an absolute path (one starting with "/") whatever the storage path, while under a relative storage path the file was saved at a relative path; so the round trip breaks |
| StorageService.ResolveUrl | backend/app/services/storage_service.py:70-75 | resolving fails exactly when the URL does not split into two parts at "/files/", with "Invalid file URL: …" |
| StorageService.GetFilePath | backend/app/services/storage_service.py:67-80 | a path is returned exactly when the URL resolves and the path exists; the errors are the URL error or "File not found: …" |
| StorageService.DeleteFile | backend/app/services/storage_service.py:82-90 | deletion reports true exactly when the path resolves, exists and the unlink succeeds |
| StorageService.MalformedUrlNotDeleted | backend/app/services/storage_service.py:70-72 | a URL without exactly one "/files/" is never deleted and gives the invalid-URL error (with lines 88-90) |
| StorageService.TwoPartsAroundMarker | backend/app/services/storage_service.py:70-74 | a URL that splits into two parts is those parts around the marker, and the second holds no marker |
| StorageService.ResolveMarked | backend/app/services/storage_service.py:70-75 | a URL with its only marker after a prefix resolves to the storage path joined with what follows |
| StorageService.ResolveFileUrl | backend/app/services/storage_service.py:70-75 | the URL of a stored file resolves to that file's path (with line 63) |
| StorageService.SaveThenResolve | backend/app/services/storage_service.py:46-80 | for a vendor id that is non-empty and does not start with "/", resolving the URL that saving returns gives back the path that saving returns (an empty vendor id breaks this; see EmptyVendorEscapesStorage) |
| StorageService.StoredNameIsLastPart | backend/app/services/storage_service.py:50 | a stored name built from slash-free ids holds no slash (with line 57) |
| PurePaths.Keep | backend/app/services/storage_service.py:53 | a parsed path has no empty or "." part (with line 75) |
| PurePaths.NameSuffix | backend/app/security/file_validation.py:51 | a suffix is empty or a dot-initial proper tail of the name (with line 122) |
| PurePaths.NameStem | backend/app/security/file_validation.py:123 | stem followed by suffix is the name |
| PurePaths.SplitAround | backend/app/services/storage_service.py:70 | splitting on a character distributes over a concatenation around that character |
| PurePaths.PartsAppend | backend/app/services/storage_service.py:53 | the parts of a "/"-joined string are the parts of each side (with line 57) |
| PurePaths.DivTwice | backend/app/services/storage_service.py:53 | joining a vendor directory and then a name is joining "vendor/name" at once (with lines 57, 75) |
| PurePaths.ParseSingle | backend/app/services/storage_service.py:57 | a slash-free name other than "" and "." is a one-part relative path named by itself |
| PurePaths.NameHasNoSlash | backend/app/security/file_validation.py:112 | the name part of any path holds no slash |
| AssessmentStorage.Pad | backend/app/services/assessment_storage_service.py:30 | a zero-padded field has exactly the requested width |
| AssessmentStorage.PadValue | backend/app/services/assessment_storage_service.py:30 | a zero-padded field is all digits and reads back as the number |
| AssessmentStorage.GenerateFilename | backend/app/services/assessment_storage_service.py:25-33 | a parsable date gives its own filename, an unparsable one the filename of the current time |
| AssessmentStorage.FilenameShape | backend/app/services/assessment_storage_service.py:30 | every filename is 24 characters and ends with ".json" (with line 33) |
| AssessmentStorage.SameSecondSameFilename | backend/app/services/assessment_storage_service.py:30 | times that differ only in microseconds share a filename |
| AssessmentStorage.FilenameDeterminesSecond | backend/app/services/assessment_storage_service.py:30 | equal filenames mean equal times up to microseconds |
| AssessmentStorage.SavedDict | backend/app/services/assessment_storage_service.py:47-51 | the saved dict holds the level and decision as their string values, the score and the analysis date |
| AssessmentStorage.SavedEnumsReadBack | backend/app/services/assessment_storage_service.py:50-51 | the saved level and decision strings parse back to the original enums |
| AssessmentStorage.SaveAssessment | backend/app/services/assessment_storage_service.py:42-58 | the path is storage path / vendor id / generated filename and ends with that filename, hence with ".json"; the saved dict is the converted assessment |
| AssessmentStorage.SavedPathEnds | backend/app/services/assessment_storage_service.py:30-44 | joining a directory with a generated filename gives a path ending in that filename and in ".json" |
| AssessmentStorage.Load | backend/app/services/assessment_storage_service.py:100-108 | a file is kept exactly when it was read and decodes to a JSON object; the kept dict has the decoded keys plus "file_path", the file's path under "file_path" and every other decoded value unchanged |
| AssessmentStorage.Tag | backend/app/services/assessment_storage_service.py:104 | tagging adds exactly the key "file_path", holding the path, and leaves every other value unchanged |
| AssessmentStorage.Loaded | backend/app/services/assessment_storage_service.py:99-110 | at most one assessment per file, each tagged with "file_path" |
| AssessmentStorage.GetAllAssessments | backend/app/services/assessment_storage_service.py:99-110 | the reading loop computes exactly the loaded list |
| AssessmentStorage.LoadedAppend | backend/app/services/assessment_storage_service.py:100-108 | loading two file lists one after the other is loading their concatenation |
| AssessmentStorage.LoadedAllReadable | backend/app/services/assessment_storage_service.py:100-108 | when every file is readable, the k-th assessment is the k-th file's |
| AssessmentStorage.UnreadableSkipped | backend/app/services/assessment_storage_service.py:106-108 | an unreadable file is skipped without affecting the others |
| AssessmentStorage.Lookup | backend/app/services/assessment_storage_service.py:167-170 | a subscript succeeds exactly for present keys, else a KeyError naming the key (with line 155) |
| AssessmentStorage.RiskTrend | backend/app/services/assessment_storage_service.py:156-161 | "increasing" exactly above 10, "decreasing" exactly below -10, "stable" in between |
| AssessmentStorage.TrendAntisymmetric | backend/app/services/assessment_storage_service.py:156-161 | negating the difference swaps increasing and decreasing and keeps stable |
| AssessmentStorage.Trend | backend/app/services/assessment_storage_service.py:150-161 | no trend for at most one assessment; for more, it succeeds exactly when the newest and the oldest hold an integer or boolean score, the trend is the label of newest minus oldest, a missing score is a `KeyError` and any other score a `TypeError` |
| AssessmentStorage.Dates | backend/app/services/assessment_storage_service.py:173 | the dates succeed exactly when every assessment has one, and are then those dates in order |
| AssessmentStorage.LatestOf | backend/app/services/assessment_storage_service.py:166-171 | the latest block exists exactly when the four keys are present, and holds their values; otherwise it is a `KeyError` |
| AssessmentStorage.GetAssessmentSummary | backend/app/services/assessment_storage_service.py:139-174 | no assessments give the zero summary; otherwise it succeeds exactly when the trend, the latest block and the dates do, failing with the first of their errors in that order, and holds the total, the vendor, the first assessment as latest, all dates and the trend (present exactly with two or more) |
| AssessmentStorage.ReloadedFields | backend/app/services/assessment_storage_service.py:47-51 | a saved and reloaded assessment holds its date, score, level string and decision string (with line 104) |
| AssessmentStorage.SummaryOfSaved | backend/app/services/assessment_storage_service.py:139-174 | summarising saved assessments succeeds, with the first as latest, every date in order, and the trend of first minus last score (with lines 35-58) |
| DocumentAirtable.ListField | backend/app/services/document_airtable_service.py:47-59 | a missing or falsy field is null; a field that decodes is its decoded value; any other is a one-element list of the raw value |
| DocumentAirtable.VendorOf | backend/app/services/document_airtable_service.py:62-64 | a truthy linked list gives its first id, a truthy non-list itself, otherwise null |
| DocumentAirtable.MapRecord | backend/app/services/document_airtable_service.py:42-80 | the document carries the record id, vendor and decoded lists; every other field is the record's value when present and otherwise its default: "Unknown" filename, "unknown" file type, "General" document type, size 0, empty URL, upload date now, "Not Analyzed", and null risk score and level |
| DocumentAirtable.EmptyRecordDefaults | backend/app/services/document_airtable_service.py:66-80 | a record without fields maps to all the defaults |
| DocumentAirtable.PresentFieldsCopied | backend/app/services/document_airtable_service.py:69-77 | every present plain field is copied unchanged |
| DocumentAirtable.UndecodableTextKept | backend/app/services/document_airtable_service.py:50-53 | a non-empty text that is not JSON becomes a one-element list of itself |
| DocumentAirtable.VendorDocuments | backend/app/services/document_airtable_service.py:122-127 | there is at most one document per record |
| DocumentAirtable.GetVendorDocuments | backend/app/services/document_airtable_service.py:113-134 | mock mode or a failed fetch give no documents; otherwise the filter loop yields exactly the vendor's documents |
| DocumentAirtable.VendorDocumentsAppend | backend/app/services/document_airtable_service.py:123-127 | filtering distributes over concatenation of the record list |
| DocumentAirtable.VendorDocumentsSingle | backend/app/services/document_airtable_service.py:124-127 | a single record is kept, mapped, exactly when its Vendor list contains the vendor id |
| DocumentAirtable.VendorDocumentsExact | backend/app/services/document_airtable_service.py:122-127 | the vendor's documents are the mapped records that link the vendor, in order |
| DocumentAirtable.Matching | backend/app/services/document_airtable_service.py:124-126 | the kept records are exactly the records that link the vendor |
| DocumentAirtable.LinksVendor | backend/app/services/document_airtable_service.py:124-126 | a record links the vendor exactly when its "Vendor" field is present, is a list, and holds the vendor id among its items |
| DocumentAirtable.MatchingAppend | backend/app/services/document_airtable_service.py:124-126 | the vendor filter distributes over concatenation |
| DocumentAirtable.MapAllAppend | backend/app/services/document_airtable_service.py:127 | mapping distributes over concatenation |
| DocumentAirtable.MockCreateDocument | backend/app/services/document_airtable_service.py:84-91 | fails exactly when "filename" is missing; otherwise adds id, upload date and "Not Analyzed", keeps every other key, and lets the data's own id win |
| DocumentAirtable.MockIdFromHash | backend/app/services/document_airtable_service.py:87 | without an id in the data, the id is "recMockDoc" followed by the filename's hash mod 10000 |
| DocumentAirtable.MockUpdateDocument | backend/app/services/document_airtable_service.py:150-156 | the result holds the analysis keys plus id and status; analysis values win; the default id and "Completed" fill the rest |
| Config.CorsOrigins | backend/app/config.py:54-56 | one origin per comma-separated piece, each the stripped piece, with no comma and no edge whitespace |
| Config.CorsOriginsRoundTrip | backend/app/config.py:54-56 | when every piece is already stripped, joining the origins with "," gives back the setting |
| Config.SingleOrigin | backend/app/config.py:54-56 | a setting without commas is one stripped origin; an empty one is [""] (with lines 23-27) |
| Config.DefaultsIsNotProduction | backend/app/config.py:49-51 | the default environment is not production; exactly "production" is, case-sensitively (with line 18) |
| Config.IsProduction | backend/app/config.py:49-51 | the production check; `DefaultsIsNotProduction` states that exactly "production" passes and the default does not |
| Config.DefaultsAgree | backend/app/config.py:30-32 | the default maximum size is 10 MB as in upload validation, and the default storage is local under "./uploads" |
| Strings.Lower | backend/app/security/prompt_injection.py:64 | lower-casing keeps the length, maps each character on its own, and leaves no upper-case letter |
| Strings.Strip | backend/app/config.py:56 | a stripped string is a slice of the input with only whitespace cut from either end, and no whitespace left at either end |
| Strings.IndexOf | backend/app/services/storage_service.py:70 | the reported position is the first occurrence of the pattern, or -1 when there is none |
| Strings.JoinSplit | backend/app/config.py:56 | joining a split with its separator gives back the text |
| Strings.SplitCharCount | backend/app/services/storage_service.py:70 | splitting on a character gives one piece more than its occurrences, none containing it |
| Strings.LastIndexOf | backend/app/security/file_validation.py:122 | the reported position holds the character and no later position does |
| Strings.PyTake | backend/app/security/file_validation.py:125 | slicing `s[:k]` gives a prefix of length k clipped to the string, counting from the end for negative k |
| PyInt.Truncate | backend/app/services/ai_service.py:87 | `int()` of a float truncates toward zero |
| PyInt.NatToStringValue | backend/app/services/document_airtable_service.py:87 | a number's decimal rendering is all digits and reads back as the number |
| PyInt.ParseIntRoundTrip | backend/app/services/ai_service.py:87 | `int()` of an integer's decimal rendering gives that integer back |

## Left out

- The language model client, its configuration and the prompt prose are left out. A reply is a parameter: a text, or a failure carrying its message.
- `json.loads`, `python-magic`, `uuid4`, `hash`, `datetime.now` and `datetime.fromisoformat` are parameters, because they are foreign code or read the clock.
- Filesystem I/O is left out. This covers `mkdir`, writing, the JSON read of stored assessments, and the sort by modification time in `get_all_assessments`. The model takes the already sorted list of files and their read outcomes.
- `async`/`await` is left out. Every modelled coroutine completes in one step.
- `str.lower` is modelled for ASCII letters only; Unicode case mapping is not modelled. `str.isspace`, `\s` and `strip()` use the full set of characters Python counts as whitespace.
- `int()` of a string is modelled for optional whitespace, an optional sign and ASCII digits. Underscores and non-ASCII digits are not modelled.
- `str()` of floats, lists and dicts in the summary blocks is a parameter (`show`). Python exception texts are labels of the `Fault` datatype, not the library's exact wording.
- The "Unsupported file type" message lists the extensions in Python set order. That order is not fixed by the language, so the model lists them as `.pdf, .docx, .txt`.
- `%Y` in assessment filenames is modelled as four zero-padded digits. Years are 1..9999.
- `processing_time_seconds` and `analysis_date` of a comprehensive result come from the clock and are not fields of the model.
- A full-document entry (`{filename, text}`) is a typed record, so a missing key of that dict is not modelled.
- AiService.Fallback: a float `risk_score` in an individual analysis makes the aggregated fallback fail, where Python would sum it; a string one fails in both. Booleans are summed as 1 and 0, as in Python. Float arithmetic is not modelled.
- AssessmentStorage.Trend: integer and boolean scores give a trend, booleans counting as 1 and 0. A float score is a `TypeError` in the model, where Python would subtract it.
- AiService.AnalyzeText: its own contract states the failure condition and the score range. The value in each branch is stated by `MockModeFixed`, `FaultGivesFallback`, `SuspiciousFindingGivesFallback` and `BadReplyGivesFallback`, and, for a reply that converts, by the contracts of `AnalysisAttempt` and `BuildAnalysis`.
- AiService.ToInt: a JSON float is a real number, so the NaN and infinities that `json.loads` accepts and `int()` rejects are not modelled; `int()` of a float never fails here.
- StorageService.SaveThenResolve: it requires a non-empty vendor id that does not start with "/". With an empty one the stored URL holds "/files//", and joining the storage path with "/name" gives "/name"; `EmptyVendorEscapesStorage` states this.
- AiService.CheckItems: for a dict the guard iterates its keys; the model does not fix their order, so a dict always fails with the same rejection message, and the `TypeError` text of a dict over 50 keys is a label.
- DocumentAirtable.VendorDocuments: its own contract bounds the length only. `VendorDocumentsExact` states its contents.
- The non-mock Airtable paths are left out, because they are calls into the Airtable client. This covers creating, fetching one document, and updating, together with the service constructor.
- `delete_assessment`, `get_latest_assessment` and `_get_vendor_dir` are left out. They only wrap filesystem calls and the list already modelled.
- `hash` of an unhashable value is not modelled. It raises `TypeError` in Python; here `hash` is a total parameter.
- Parsing settings from the environment and `.env` (pydantic) is left out. `Settings` is a plain record, and `DefaultSettings` holds its defaults.
- The Google Cloud Storage service only raises in its constructor. It is modelled as that error.
- `main.py`, the audit-logging middleware, `document_service.py` and `airtable_service.py` are not part of this model.
