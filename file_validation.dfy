/** Upload validation: the guard chain of `validate_upload` and the rewriting done by
    `sanitize_filename`. The MIME type that `python-magic` detects is an input. */
module FileValidation {
  import opened Wrappers
  import opened Strings
  import opened Http
  import opened PurePaths

  const MaxFileSize := 10 * 1024 * 1024
  const MaxFilenameLength := 255

  const AllowedMimeTypes: map<string, string> := map[
    "application/pdf" := ".pdf",
    "application/vnd.openxmlformats-officedocument.wordprocessingml.document" := ".docx",
    "text/plain" := ".txt"]

  const AllowedExtensions: set<string> := {".pdf", ".docx", ".txt"}

  /** The allowed extensions in the order the error message lists them (see README). */
  const AllowedListing: seq<string> := [".pdf", ".docx", ".txt"]

  /** An accepted upload: the contents as read, and the checked extension. */
  datatype Upload = Upload(contents: seq<bv8>, extension: string)

  const InvalidFilenameError := HttpError(400, "Invalid filename or filename too long (max 255 chars)")
  const InvalidCharactersError := HttpError(400, "Filename contains invalid characters")
  const EmptyFileError := HttpError(400, "File is empty")
  /** The limit divided twice by 1024 is a float, so it prints as "10.0". */
  const TooLargeError := HttpError(413, "File too large. Maximum size: 10.0MB")

  /** `Path(filename).suffix.lower()`. */
  function FileExtension(filename: string): string
  {
    Lower(Suffix(Parse(filename)))
  }

  predicate NameAcceptable(filename: Option<string>)
  {
    filename.Some? && filename.value != "" && |filename.value| <= MaxFilenameLength
  }

  predicate NameClean(name: string)
  {
    !Contains(name, "..") && !Contains(name, "/") && !Contains(name, "\\")
  }

  /** `validate_upload`: the guards in the source's order, each raising its own error. */
  function ValidateUpload(filename: Option<string>, contents: seq<bv8>, mime: Result<string, string>)
    : (r: Result<Upload, HttpError>)
    ensures r.Success? ==> NameAcceptable(filename) && NameClean(filename.value)
    ensures r.Success? ==> r.value.contents == contents && 0 < |contents| <= MaxFileSize
    ensures r.Success? ==> r.value.extension == FileExtension(filename.value) && r.value.extension in AllowedExtensions
    ensures r.Success? ==> mime.Success? && mime.value in AllowedMimeTypes
    ensures r.Success? ==> AllowedMimeTypes[mime.value] == r.value.extension
    ensures r.Failure? ==> r.error.status == 400 || (r.error.status == 413 && |contents| > MaxFileSize)
  {
    if !NameAcceptable(filename) then Failure(InvalidFilenameError)
    else
      var name := filename.value;
      if !NameClean(name) then Failure(InvalidCharactersError)
      else
        var ext := FileExtension(name);
        if ext !in AllowedExtensions then
          Failure(HttpError(400, "Unsupported file type: " + ext + ". Allowed: " + JoinSep(", ", AllowedListing)))
        else if |contents| == 0 then Failure(EmptyFileError)
        else if |contents| > MaxFileSize then Failure(TooLargeError)
        else
          match mime
          case Failure(msg) => Failure(HttpError(400, "Unable to determine file type: " + msg))
          case Success(m) =>
            if m !in AllowedMimeTypes then
              Failure(HttpError(400, "Invalid file type detected: " + m + ". Allowed types: PDF, DOCX, TXT"))
            else if ext != AllowedMimeTypes[m] then
              Failure(HttpError(400, "File extension '" + ext + "' does not match file type '" + m + "'"))
            else Success(Upload(contents, ext))
  }

  /** Every upload that passes all guards is accepted with its own contents and extension. */
  lemma ValidUploadAccepted(name: string, contents: seq<bv8>, mime: string)
    requires NameAcceptable(Some(name)) && NameClean(name)
    requires 0 < |contents| <= MaxFileSize
    requires mime in AllowedMimeTypes && AllowedMimeTypes[mime] == FileExtension(name)
    ensures ValidateUpload(Some(name), contents, Success(mime)) == Success(Upload(contents, FileExtension(name)))
  {
    assert AllowedMimeTypes[mime] in AllowedExtensions;
  }

  /** A bad name is reported before anything about the contents or the detected type:
      the error does not depend on them. */
  lemma NameCheckedFirst(
    filename: Option<string>, c1: seq<bv8>, m1: Result<string, string>, c2: seq<bv8>, m2: Result<string, string>)
    requires !NameAcceptable(filename) || !NameClean(filename.value)
    ensures ValidateUpload(filename, c1, m1) == ValidateUpload(filename, c2, m2)
    ensures ValidateUpload(filename, c1, m1) == Failure(InvalidFilenameError) ||
            ValidateUpload(filename, c1, m1) == Failure(InvalidCharactersError)
  {
  }

  /** An extension outside the allowed set is reported whatever the contents and the
      detected type. */
  lemma ExtensionCheckedBeforeContents(
    name: string, c1: seq<bv8>, m1: Result<string, string>, c2: seq<bv8>, m2: Result<string, string>)
    requires NameAcceptable(Some(name)) && NameClean(name)
    requires FileExtension(name) !in AllowedExtensions
    ensures ValidateUpload(Some(name), c1, m1) == ValidateUpload(Some(name), c2, m2)
    ensures ValidateUpload(Some(name), c1, m1).error.status == 400
  {
  }

  /** Empty contents give 400 and oversized contents 413, before the detected type is
      looked at. */
  lemma SizeCheckedBeforeType(name: string, contents: seq<bv8>, m1: Result<string, string>, m2: Result<string, string>)
    requires NameAcceptable(Some(name)) && NameClean(name)
    requires FileExtension(name) in AllowedExtensions
    requires |contents| == 0 || |contents| > MaxFileSize
    ensures ValidateUpload(Some(name), contents, m1) == ValidateUpload(Some(name), contents, m2)
    ensures |contents| == 0 ==> ValidateUpload(Some(name), contents, m1) == Failure(EmptyFileError)
    ensures |contents| > MaxFileSize ==> ValidateUpload(Some(name), contents, m1) == Failure(TooLargeError)
  {
  }

  // ---------------------------------------------------------------------------
  // sanitize_filename
  // ---------------------------------------------------------------------------

  const DangerousChars: seq<string> := ["..", "/", "\\", "<", ">", ":", "\"", "|", "?", "*"]

  /** The name after the first `k` replacements of the loop. */
  function ReplaceUpTo(s: string, k: nat): string
    requires k <= |DangerousChars|
  {
    if k == 0 then s else ReplaceAll(ReplaceUpTo(s, k - 1), DangerousChars[k - 1], "_")
  }

  /** The length step: a name over 255 characters keeps its suffix and loses the end
      of its stem. */
  function LimitLength(name: string): (r: string)
    ensures |name| <= MaxFilenameLength ==> r == name
  {
    if |name| > MaxFilenameLength then
      var ext := Suffix(Parse(name));
      var stem := Stem(Parse(name));
      PyTake(stem, MaxFilenameLength - |ext|) + ext
    else name
  }

  /** What `sanitize_filename` returns. */
  function Sanitized(filename: string): string
  {
    LimitLength(ReplaceUpTo(Name(Parse(filename)), |DangerousChars|))
  }

  /** `sanitize_filename`: take the final component, replace each dangerous sequence
      in turn, then limit the length. */
  method SanitizeFilename(filename: string) returns (r: string)
    ensures r == Sanitized(filename)
  {
    var base := Name(Parse(filename));
    r := base;
    var k := 0;
    while k < |DangerousChars|
      invariant 0 <= k <= |DangerousChars|
      invariant r == ReplaceUpTo(base, k)
    {
      r := ReplaceAll(r, DangerousChars[k], "_");
      k := k + 1;
    }
    if |r| > MaxFilenameLength {
      var ext := Suffix(Parse(r));
      var stem := Stem(Parse(r));
      r := PyTake(stem, MaxFilenameLength - |ext|) + ext;
    }
  }

  // Facts about `ReplaceAll` the properties rely on.

  /** Replacing one character by another is a character-wise map. */
  lemma {:induction false} ReplaceOneChar(s: string, c: char, d: char)
    ensures |ReplaceAll(s, [c], [d])| == |s|
    ensures forall i :: 0 <= i < |s| ==> ReplaceAll(s, [c], [d])[i] == if s[i] == c then d else s[i]
    decreases |s|
  {
    if |s| >= 1 {
      ReplaceOneChar(s[1..], c, d);
      assert s[..1] == [s[0]];
    }
  }

  /** A character found neither in the text nor in the replacement is not in the result. */
  lemma {:induction false} ReplaceKeepsAbsent(s: string, p: string, rep: string, c: char)
    requires |p| > 0 && !ContainsChar(s, c) && !ContainsChar(rep, c)
    ensures !ContainsChar(ReplaceAll(s, p, rep), c)
    decreases |s|
  {
    if |s| >= |p| {
      var k := if s[..|p|] == p then |p| else 1;
      SliceKeepsAbsent(s, k, |s|, c);
      assert s[k..|s|] == s[k..];
      ReplaceKeepsAbsent(s[k..], p, rep, c);
      if s[..|p|] == p {
        ConcatKeepsAbsent(rep, ReplaceAll(s[k..], p, rep), c);
      } else {
        ConcatKeepsAbsent([s[0]], ReplaceAll(s[k..], p, rep), c);
      }
    }
  }

  predicate NoDoubleDot(s: string)
  {
    forall i :: 0 <= i < |s| - 1 ==> !(s[i] == '.' && s[i + 1] == '.')
  }

  lemma NoDoubleDotIsNotContains(s: string)
    ensures NoDoubleDot(s) <==> !Contains(s, "..")
  {
    if !NoDoubleDot(s) {
      var i :| 0 <= i < |s| - 1 && s[i] == '.' && s[i + 1] == '.';
      assert s[i..][..2] == "..";
    }
    if Contains(s, "..") {
      var i :| 0 <= i <= |s| && StartsWith(s[i..], "..");
      assert s[i] == s[i..][..2][0] && s[i + 1] == s[i..][..2][1];
    }
  }

  /** Replacing ".." leaves a text whose first character is that of the input, when the
      input does not open with a dot. */
  lemma ReplaceDotsHead(t: string)
    requires t != [] && t[0] != '.'
    ensures ReplaceAll(t, "..", "_") != [] && ReplaceAll(t, "..", "_")[0] == t[0]
  {
    if |t| >= 2 {
      assert t[..2] != "..";
    }
  }

  /** After replacing every ".." no two dots are adjacent. */
  lemma {:induction false} ReplaceDotsClears(s: string)
    ensures NoDoubleDot(ReplaceAll(s, "..", "_"))
    decreases |s|
  {
    if |s| >= 2 {
      var r := ReplaceAll(s, "..", "_");
      if s[..2] == ".." {
        ReplaceDotsClears(s[2..]);
        var tail := ReplaceAll(s[2..], "..", "_");
        assert r == "_" + tail;
        forall i | 0 <= i < |r| - 1 ensures !(r[i] == '.' && r[i + 1] == '.') {
          if i >= 1 { assert r[i] == tail[i - 1] && r[i + 1] == tail[i]; }
        }
      } else {
        ReplaceDotsClears(s[1..]);
        var tail := ReplaceAll(s[1..], "..", "_");
        assert r == [s[0]] + tail;
        if s[0] == '.' {
          assert s[1] != '.' by { assert s[..2] == [s[0], s[1]]; }
          ReplaceDotsHead(s[1..]);
        }
        forall i | 0 <= i < |r| - 1 ensures !(r[i] == '.' && r[i + 1] == '.') {
          if i >= 1 { assert r[i] == tail[i - 1] && r[i + 1] == tail[i]; }
        }
      }
    }
  }

  /** Replacing a character other than '.' by '_' keeps dots apart. */
  lemma ReplaceOneKeepsNoDoubleDot(s: string, c: char)
    requires c != '.' && NoDoubleDot(s)
    ensures NoDoubleDot(ReplaceAll(s, [c], "_"))
  {
    ReplaceOneChar(s, c, '_');
  }

  /** The single characters of the list; ".." is its only longer entry. */
  const DangerousSingles: string := "/\\<>:\"|?*"

  lemma DangerousSinglesListed(j: nat)
    requires j < |DangerousSingles|
    ensures DangerousChars[j + 1] == [DangerousSingles[j]]
  {
  }

  /** After the first `k` replacements none of the single characters replaced so far
      remain, and no two dots are adjacent. */
  lemma {:induction false} ReplaceUpToClears(s: string, k: nat)
    requires 1 <= k <= |DangerousChars|
    ensures NoDoubleDot(ReplaceUpTo(s, k))
    ensures forall j :: 0 <= j < k - 1 ==> !ContainsChar(ReplaceUpTo(s, k), DangerousSingles[j])
  {
    if k == 1 {
      ReplaceDotsClears(s);
    } else {
      ReplaceUpToClears(s, k - 1);
      var prev := ReplaceUpTo(s, k - 1);
      var c := DangerousSingles[k - 2];
      DangerousSinglesListed(k - 2);
      ReplaceOneKeepsNoDoubleDot(prev, c);
      ReplaceOneChar(prev, c, '_');
      forall j | 0 <= j < k - 1 ensures !ContainsChar(ReplaceUpTo(s, k), DangerousSingles[j]) {
        if j < k - 2 {
          ReplaceKeepsAbsent(prev, [c], "_", DangerousSingles[j]);
        }
      }
    }
  }

  /** The length step on a name without a slash: the stem is cut and the suffix kept. */
  lemma LimitLengthParts(name: string)
    requires |name| > MaxFilenameLength && !ContainsChar(name, '/')
    ensures var ext := NameSuffix(name);
      LimitLength(name) == PyTake(NameStem(name), MaxFilenameLength - |ext|) + ext
  {
    ParseSingle(name);
  }

  /** The length step adds no character the name did not have. */
  lemma LimitLengthKeepsAbsent(name: string, c: char)
    requires !ContainsChar(name, '/') && !ContainsChar(name, c)
    ensures !ContainsChar(LimitLength(name), c)
  {
    if |name| > MaxFilenameLength {
      LimitLengthParts(name);
      var ext := NameSuffix(name);
      var stem := NameStem(name);
      var cut := PyTake(stem, MaxFilenameLength - |ext|);
      assert name[..|stem|] == stem && name[|stem|..] == ext;
      SliceKeepsAbsent(name, 0, |stem|, c);
      SliceKeepsAbsent(name, |stem|, |name|, c);
      SliceKeepsAbsent(stem, 0, |cut|, c);
      ConcatKeepsAbsent(cut, ext, c);
    }
  }

  /** The output contains none of / \ < > : " | ? *. */
  lemma SanitizedHasNoDangerousChars(filename: string, j: nat)
    requires j < |DangerousSingles|
    ensures !ContainsChar(Sanitized(filename), DangerousSingles[j])
  {
    var replaced := ReplaceUpTo(Name(Parse(filename)), |DangerousChars|);
    ReplaceUpToClears(Name(Parse(filename)), |DangerousChars|);
    assert DangerousSingles[0] == '/';
    LimitLengthKeepsAbsent(replaced, DangerousSingles[j]);
  }

  /** When no truncation happens, the output contains no "..". */
  lemma SanitizedNoDoubleDotWithoutTruncation(filename: string)
    requires |ReplaceUpTo(Name(Parse(filename)), |DangerousChars|)| <= MaxFilenameLength
    ensures !Contains(Sanitized(filename), "..")
  {
    ReplaceUpToClears(Name(Parse(filename)), |DangerousChars|);
    NoDoubleDotIsNotContains(Sanitized(filename));
  }

  /** A name of at most 255 characters is left alone by the length step; a longer one
      without a slash keeps its suffix and, when the suffix has at most 255 characters,
      comes out exactly 255 characters long. */
  lemma LimitLengthShape(name: string)
    requires !ContainsChar(name, '/')
    ensures |name| <= MaxFilenameLength ==> LimitLength(name) == name
    ensures |name| > MaxFilenameLength ==> EndsWith(LimitLength(name), NameSuffix(name))
    ensures |name| > MaxFilenameLength && |NameSuffix(name)| <= MaxFilenameLength ==>
      |LimitLength(name)| == MaxFilenameLength
  {
    if |name| > MaxFilenameLength {
      LimitLengthParts(name);
      var ext := NameSuffix(name);
      var r := LimitLength(name);
      assert r[|r| - |ext|..] == ext;
    }
  }

  function Repeat(c: char, n: nat): (r: string)
    ensures |r| == n && forall i :: 0 <= i < n ==> r[i] == c
  {
    seq(n, i => c)
  }

  /** The truncation can put ".." back: in a 265-character name with no dangerous
      character, cutting the stem to 251 characters leaves it ending in "." just before
      the ".pdf" suffix. */
  lemma TruncationCanReintroduceDoubleDot()
    ensures var name := Repeat('a', 250) + "." + Repeat('b', 10) + ".pdf";
      !Contains(name, "..") && Contains(LimitLength(name), "..")
  {
    var name := Repeat('a', 250) + "." + Repeat('b', 10) + ".pdf";
    assert |name| == 265;
    assert forall i :: 0 <= i < 250 ==> name[i] == 'a';
    assert name[250] == '.';
    assert forall i :: 251 <= i < 261 ==> name[i] == 'b';
    assert name[261..] == ".pdf";
    assert !ContainsChar(name, '/') by {
      forall i | 0 <= i < |name| ensures name[i] != '/' {
        if i >= 261 { assert name[i] == ".pdf"[i - 261]; }
      }
    }
    assert NoDoubleDot(name) by {
      forall i | 0 <= i < |name| - 1 ensures !(name[i] == '.' && name[i + 1] == '.') {
        if i >= 261 { assert name[i + 1] == ".pdf"[i + 1 - 261]; }
      }
    }
    NoDoubleDotIsNotContains(name);
    var dot := LastIndexOf(name, '.');
    assert dot == 261 by {
      assert name[261] == '.';
      forall j | 261 < j < |name| ensures name[j] != '.' { assert name[j] == ".pdf"[j - 261]; }
    }
    assert NameSuffix(name) == ".pdf";
    assert NameStem(name) == name[..261];
    LimitLengthParts(name);
    var r := LimitLength(name);
    assert r == name[..251] + ".pdf";
    assert r[250] == '.' && r[251] == '.';
    assert !NoDoubleDot(r);
    NoDoubleDotIsNotContains(r);
  }
}
