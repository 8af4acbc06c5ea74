/** The local file store: how a saved file is named, where it is written, the URL
    handed out for it, and how such a URL is turned back into a path. The filesystem
    itself (mkdir, write, pathExists, unlink) and `uuid4` are parameters. */
module StorageService {
  import opened Wrappers
  import opened Strings
  import opened PurePaths

  /** The environment, as `os.getenv` sees it. */
  type Env = map<string, string>

  function Getenv(env: Env, key: string, default: string): (r: string)
    ensures key !in env ==> r == default
    ensures key in env ==> r == env[key]
  {
    if key in env then env[key] else default
  }

  /** The exceptions the service raises, each with its message. */
  datatype StorageError =
    | ValueError(msg: string)
    | FileNotFound(msg: string)
    | NotImplemented(msg: string)

  /** `LocalStorageService`: both fields are read once from the environment and never
      changed afterwards. */
  datatype LocalStorage = LocalStorage(storagePath: string, baseUrl: string)

  const DefaultStoragePath := "./uploads"
  const DefaultBaseUrl := "http://localhost:8000"
  const FilesMarker := "/files/"

  /** The constructor: a variable that is set is used as it stands, even when empty; an
      unset one gives the default. The `mkdir` is left out. */
  function NewLocalStorage(env: Env): (s: LocalStorage)
    ensures "STORAGE_PATH" in env ==> s.storagePath == env["STORAGE_PATH"]
    ensures "STORAGE_PATH" !in env ==> s.storagePath == "./uploads"
    ensures "BASE_URL" in env ==> s.baseUrl == env["BASE_URL"]
    ensures "BASE_URL" !in env ==> s.baseUrl == "http://localhost:8000"
  {
    LocalStorage(Getenv(env, "STORAGE_PATH", DefaultStoragePath), Getenv(env, "BASE_URL", DefaultBaseUrl))
  }

  /** `get_storage_service`: "local" (the default) builds the local store, "gcs" always
      fails in the constructor, anything else is an unknown type. */
  function GetStorageService(env: Env): (r: Result<LocalStorage, StorageError>)
    ensures r.Success? <==> Getenv(env, "STORAGE_TYPE", "local") == "local"
    ensures r.Success? ==> r.value == NewLocalStorage(env)
    ensures Getenv(env, "STORAGE_TYPE", "local") == "gcs" ==> r == Failure(NotImplemented("GCS storage not yet implemented"))
    ensures r.Failure? && r.error.ValueError? <==> Getenv(env, "STORAGE_TYPE", "local") !in {"local", "gcs"}
  {
    var storageType := Getenv(env, "STORAGE_TYPE", "local");
    if storageType == "local" then Success(NewLocalStorage(env))
    else if storageType == "gcs" then Failure(NotImplemented("GCS storage not yet implemented"))
    else Failure(ValueError("Unknown storage type: " + storageType))
  }

  /** With nothing set, the factory gives the local store under "./uploads" served
      from localhost. */
  lemma EmptyEnvGivesLocalDefaults()
    ensures GetStorageService(map[]) == Success(LocalStorage("./uploads", "http://localhost:8000"))
  {
  }

  /** The unique name of a saved file: vendor id, "_", the generated uuid, and the
      suffix of the uploaded name. */
  function StoredName(vendorId: string, uuid: string, filename: string): (r: string)
    ensures StartsWith(r, vendorId + "_" + uuid)
    ensures EndsWith(r, Suffix(Parse(filename)))
    ensures |r| == |vendorId| + 1 + |uuid| + |Suffix(Parse(filename))|
  {
    var r := vendorId + "_" + uuid + Suffix(Parse(filename));
    assert r[..|vendorId + "_" + uuid|] == vendorId + "_" + uuid;
    assert r[|r| - |Suffix(Parse(filename))|..] == Suffix(Parse(filename));
    r
  }

  /** The path a file is written to: the storage path, then the vendor id, then the
      stored name, joined as `Path` joins them. */
  function StoredPath(s: LocalStorage, vendorId: string, name: string): (r: string)
    ensures (name != "" && name != "." && !ContainsChar(name, '/')) ==> EndsWith(r, name)
  {
    NameEndsWhenProper(Div(Parse(s.storagePath), vendorId), name);
    Str(Div(Div(Parse(s.storagePath), vendorId), name))
  }

  lemma NameEndsWhenProper(p: PurePath, name: string)
    ensures (name != "" && name != "." && !ContainsChar(name, '/')) ==> EndsWith(Str(Div(p, name)), name)
  {
    if name != "" && name != "." && !ContainsChar(name, '/') {
      StrEndsWithName(p, name);
    }
  }

  /** The URL handed out for a stored file: exactly the base URL, "/files/", the vendor
      id, "/" and the stored name, with nothing in between. */
  function FileUrl(s: LocalStorage, vendorId: string, name: string): (url: string)
    ensures StartsWith(url, s.baseUrl + FilesMarker + vendorId + "/")
    ensures EndsWith(url, name)
    ensures |url| == |s.baseUrl + FilesMarker + vendorId + "/"| + |name|
  {
    var url := s.baseUrl + FilesMarker + vendorId + "/" + name;
    assert url[..|s.baseUrl + FilesMarker + vendorId + "/"|] == s.baseUrl + FilesMarker + vendorId + "/";
    assert url[|url| - |name|..] == name;
    url
  }

  /** `save_file`: the (path, URL) pair it returns for a generated uuid. The write of
      the contents is left out. */
  function SaveFile(s: LocalStorage, vendorId: string, uuid: string, filename: string): (r: (string, string))
    ensures r.0 == StoredPath(s, vendorId, StoredName(vendorId, uuid, filename))
    ensures r.1 == FileUrl(s, vendorId, StoredName(vendorId, uuid, filename))
    ensures !ContainsChar(vendorId, '/') && !ContainsChar(uuid, '/') ==>
      EndsWith(r.0, StoredName(vendorId, uuid, filename)) && EndsWith(r.1, "/" + StoredName(vendorId, uuid, filename))
  {
    var name := StoredName(vendorId, uuid, filename);
    SavedNamesEnd(s, vendorId, uuid, filename);
    (StoredPath(s, vendorId, name), FileUrl(s, vendorId, name))
  }

  /** With slash-free ids, both the written path and the URL end in the stored name. */
  lemma SavedNamesEnd(s: LocalStorage, vendorId: string, uuid: string, filename: string)
    ensures var name := StoredName(vendorId, uuid, filename);
      !ContainsChar(vendorId, '/') && !ContainsChar(uuid, '/') ==>
        EndsWith(StoredPath(s, vendorId, name), name) && EndsWith(FileUrl(s, vendorId, name), "/" + name)
  {
    var name := StoredName(vendorId, uuid, filename);
    if !ContainsChar(vendorId, '/') && !ContainsChar(uuid, '/') {
      StoredNameIsLastPart(vendorId, uuid, filename);
      StoredNameProper(vendorId, uuid, filename);
      UrlEndsWithName(s, vendorId, name);
    }
  }

  /** A stored name is neither "" nor ".", since it holds the "_" after the vendor id. */
  lemma StoredNameProper(vendorId: string, uuid: string, filename: string)
    ensures var name := StoredName(vendorId, uuid, filename); name != "" && name != "."
  {
    var name := StoredName(vendorId, uuid, filename);
    var head := vendorId + "_" + uuid;
    assert name[..|head|] == head;
    assert name[|vendorId|] == head[|vendorId|] == '_';
  }

  lemma UrlEndsWithName(s: LocalStorage, vendorId: string, name: string)
    ensures EndsWith(FileUrl(s, vendorId, name), "/" + name)
  {
    var url := FileUrl(s, vendorId, name);
    var pre := s.baseUrl + FilesMarker + vendorId;
    assert url == pre + ("/" + name);
    assert url[|pre|..] == "/" + name;
  }

  /** The path a URL names, before asking whether it exists: the text after the one
      "/files/" joined onto the storage path. */
  function ResolveUrl(s: LocalStorage, fileUrl: string): (r: Result<string, StorageError>)
    ensures r.Failure? <==> |Split(fileUrl, FilesMarker)| != 2
    ensures r.Failure? ==> r.error == ValueError("Invalid file URL: " + fileUrl)
  {
    var parts := Split(fileUrl, FilesMarker);
    if |parts| != 2 then Failure(ValueError("Invalid file URL: " + fileUrl))
    else Success(Str(Div(Parse(s.storagePath), parts[1])))
  }

  /** `get_file_path`: `pathExists` stands for the filesystem query. */
  function GetFilePath(s: LocalStorage, fileUrl: string, pathExists: string -> bool): (r: Result<string, StorageError>)
    ensures r.Success? <==> ResolveUrl(s, fileUrl).Success? && pathExists(ResolveUrl(s, fileUrl).value)
    ensures r.Success? ==> r.value == ResolveUrl(s, fileUrl).value
    ensures ResolveUrl(s, fileUrl).Failure? ==> r == ResolveUrl(s, fileUrl)
    ensures ResolveUrl(s, fileUrl).Success? && r.Failure? ==>
      r.error == FileNotFound("File not found: " + ResolveUrl(s, fileUrl).value)
  {
    match ResolveUrl(s, fileUrl)
    case Failure(e) => Failure(e)
    case Success(path) =>
      if pathExists(path) then Success(path) else Failure(FileNotFound("File not found: " + path))
  }

  /** `delete_file`: every failure, of the lookup or of `unlink`, ends as false; nothing
      is raised. */
  function DeleteFile(s: LocalStorage, fileUrl: string, pathExists: string -> bool, unlink: string -> bool): (r: bool)
    ensures r ==> GetFilePath(s, fileUrl, pathExists).Success?
    ensures r <==> GetFilePath(s, fileUrl, pathExists).Success? && unlink(GetFilePath(s, fileUrl, pathExists).value)
  {
    match GetFilePath(s, fileUrl, pathExists)
    case Failure(_) => false
    case Success(path) => unlink(path)
  }

  /** A URL with no "/files/", or with more than one, is never deleted. */
  lemma MalformedUrlNotDeleted(s: LocalStorage, fileUrl: string, pathExists: string -> bool, unlink: string -> bool)
    requires |Split(fileUrl, FilesMarker)| != 2
    ensures !DeleteFile(s, fileUrl, pathExists, unlink)
    ensures GetFilePath(s, fileUrl, pathExists) == Failure(ValueError("Invalid file URL: " + fileUrl))
  {
  }

  /** Splitting on a separator that does not occur gives the text itself. */
  lemma SplitAbsent(s: string, sep: string)
    requires |sep| > 0
    requires forall j :: 0 <= j <= |s| ==> !StartsWith(s[j..], sep)
    ensures Split(s, sep) == [s]
  {
  }

  /** A text with exactly one occurrence of the separator, at position `i`, splits into
      what precedes it and what follows it. */
  lemma SplitSingle(s: string, sep: string, i: nat)
    requires |sep| > 0 && i + |sep| <= |s| && s[i..i + |sep|] == sep
    requires forall j :: 0 <= j <= |s| && StartsWith(s[j..], sep) ==> j == i
    ensures Split(s, sep) == [s[..i], s[i + |sep|..]]
  {
    assert s[i..][..|sep|] == s[i..i + |sep|];
    IndexOfIs(s, sep, i);
    SplitStep(s, sep);
    var rest := s[i + |sep|..];
    forall j | 0 <= j <= |rest| ensures !StartsWith(rest[j..], sep) {
      DropDrop(s, i + |sep|, j);
    }
    SplitAbsent(rest, sep);
  }

  lemma DropDrop(s: string, k: nat, j: nat)
    requires k + j <= |s|
    ensures s[k..][j..] == s[k + j..]
  {
  }

  /** Conversely, a text that splits into exactly two parts is those parts around the
      separator, and the second part holds no further separator. */
  lemma TwoPartsAroundMarker(s: string, sep: string)
    requires |sep| > 0 && |Split(s, sep)| == 2
    ensures var parts := Split(s, sep);
      s == parts[0] + sep + parts[1] && !Contains(parts[1], sep)
  {
    var i := IndexOf(s, sep);
    var rest := s[i + |sep|..];
    assert s == s[..i] + s[i..][..|sep|] + rest;
    assert IndexOf(rest, sep) < 0;
  }

  /** A URL with its only "/files/" right after `prefix` resolves to the text after it. */
  lemma ResolveMarked(s: LocalStorage, url: string, prefix: string, rel: string)
    requires url == prefix + FilesMarker + rel
    requires forall j :: 0 <= j <= |url| && StartsWith(url[j..], FilesMarker) ==> j == |prefix|
    ensures ResolveUrl(s, url) == Success(Str(Div(Parse(s.storagePath), rel)))
  {
    var b := |prefix|;
    assert url[b..b + |FilesMarker|] == FilesMarker;
    SplitSingle(url, FilesMarker, b);
    assert url[b + |FilesMarker|..] == rel;
  }

  /** The round trip for any stored name that starts like the vendor id. */
  lemma ResolveFileUrl(s: LocalStorage, vendorId: string, name: string)
    requires vendorId != "" && vendorId[0] != '/' && name != [] && name[0] == vendorId[0]
    requires var url := FileUrl(s, vendorId, name);
      forall j :: 0 <= j <= |url| && StartsWith(url[j..], FilesMarker) ==> j == |s.baseUrl|
    ensures ResolveUrl(s, FileUrl(s, vendorId, name)) == Success(StoredPath(s, vendorId, name))
  {
    var url := FileUrl(s, vendorId, name);
    assert url == s.baseUrl + FilesMarker + (vendorId + "/" + name);
    ResolveMarked(s, url, s.baseUrl, vendorId + "/" + name);
    DivTwice(Parse(s.storagePath), vendorId, name);
  }

  /** Round trip: for a vendor id that is non-empty and does not start with "/", when the
      URL `save_file` hands out holds "/files/" only where it was inserted, `get_file_path`
      finds the very path the file was written to (before asking whether it exists). */
  lemma SaveThenResolve(s: LocalStorage, vendorId: string, uuid: string, filename: string)
    requires vendorId != "" && vendorId[0] != '/'
    requires var url := SaveFile(s, vendorId, uuid, filename).1;
      forall j :: 0 <= j <= |url| && StartsWith(url[j..], FilesMarker) ==> j == |s.baseUrl|
    ensures ResolveUrl(s, SaveFile(s, vendorId, uuid, filename).1) == Success(SaveFile(s, vendorId, uuid, filename).0)
  {
    var name := StoredName(vendorId, uuid, filename);
    assert name[0] == vendorId[0] by {
      assert name[..|vendorId + "_" + uuid|][0] == name[0];
    }
    ResolveFileUrl(s, vendorId, name);
  }

  /** The stored name carries no directory part when neither the vendor id, the uuid nor
      the uploaded name's suffix holds a "/", so the written path ends in that name. */
  lemma StoredNameIsLastPart(vendorId: string, uuid: string, filename: string)
    requires !ContainsChar(vendorId, '/') && !ContainsChar(uuid, '/')
    ensures !ContainsChar(StoredName(vendorId, uuid, filename), '/')
  {
    var ext := Suffix(Parse(filename));
    var name := StoredName(vendorId, uuid, filename);
    assert !ContainsChar(ext, '/') by {
      var n := Name(Parse(filename));
      NameHasNoSlash(filename);
      forall k | 0 <= k < |ext| ensures ext[k] != '/' {
        assert ext == n[|n| - |ext|..];
        assert ext[k] == n[|n| - |ext| + k];
      }
    }
    forall k | 0 <= k < |name| ensures name[k] != '/' {
      if k < |vendorId| { assert name[k] == vendorId[k]; }
      else if k == |vendorId| { assert name[k] == '_'; }
      else if k < |vendorId| + 1 + |uuid| { assert name[k] == uuid[k - |vendorId| - 1]; }
      else { assert name[k] == ext[k - |vendorId| - 1 - |uuid|]; }
    }
  }

  /** With an empty vendor id the URL reads ".../files//<name>": what follows the marker
      starts with "/", so `/` treats it as absolute and the resolved path starts with "/"
      whatever the storage path is, while a relative storage path (the default
      "./uploads") writes the file to a path that does not. */
  lemma EmptyVendorEscapesStorage(s: LocalStorage, uuid: string, filename: string)
    requires var url := SaveFile(s, "", uuid, filename).1;
      forall j :: 0 <= j <= |url| && StartsWith(url[j..], FilesMarker) ==> j == |s.baseUrl|
    ensures ResolveUrl(s, SaveFile(s, "", uuid, filename).1).Success?
    ensures StartsWith(ResolveUrl(s, SaveFile(s, "", uuid, filename).1).value, "/")
    ensures RootOf(s.storagePath) == "" ==> !StartsWith(SaveFile(s, "", uuid, filename).0, "/")
  {
    var name := StoredName("", uuid, filename);
    var url := FileUrl(s, "", name);
    EmptyVendorUrl(s, name);
    ResolveMarked(s, url, s.baseUrl, "/" + name);
    EmptyVendorName(uuid, filename);
    AbsoluteTail(Parse(s.storagePath), name);
    if RootOf(s.storagePath) == "" {
      RelativeWrite(s.storagePath, name);
    }
  }

  lemma EmptyVendorUrl(s: LocalStorage, name: string)
    ensures FileUrl(s, "", name) == s.baseUrl + FilesMarker + ("/" + name)
  {
  }

  lemma EmptyVendorName(uuid: string, filename: string)
    ensures StoredName("", uuid, filename) != [] && StoredName("", uuid, filename)[0] == '_'
  {
    var name := StoredName("", uuid, filename);
    var head := "" + "_" + uuid;
    assert name[..|head|] == head;
  }

  /** Joining "/" + `name`, for a name that does not itself start with "/", gives an
      absolute path whose text starts with "/". */
  lemma AbsoluteTail(p: PurePath, name: string)
    requires name != [] && name[0] != '/'
    ensures StartsWith(Str(Div(p, "/" + name)), "/")
  {
    var abs := "/" + name;
    assert RootOf(abs) == "/" by {
      assert abs[..1] == "/";
      assert abs[..2] != "//" by { assert abs[..2][1] == abs[1] == name[0]; }
    }
    var q := Parse(abs);
    assert Div(p, abs) == q;
    assert Str(q) == "/" + JoinSep("/", q.parts);
  }

  /** Under a relative storage path, the file written for vendor id "" sits at a path
      whose text does not start with "/". */
  lemma RelativeWrite(storagePath: string, name: string)
    requires RootOf(storagePath) == ""
    requires name == [] || name[0] != '/'
    ensures !StartsWith(Str(Div(Div(Parse(storagePath), ""), name)), "/")
  {
    var p := Parse(storagePath);
    RelativeRoot(name);
    RelativeRoot("");
    PartsLackSlash(storagePath);
    PartsLackSlash(name);
    assert Split("", "/") == [""];
    assert PartsOf("") == [];
    assert Div(p, "") == p;
    var written := Div(p, name);
    assert written == PurePath("", p.parts + PartsOf(name));
    RelativeStr(written);
  }
}
