/**
 * `BuildArtifactValidator`: after a Vite build, checks that the build directory
 * exists, counts the JavaScript and CSS files directly inside it, requires
 * `manifest.json`, and checks that the manifest decodes to an array. The directory
 * listing, the filesystem and `json_decode` are inputs; log records are outputs.
 */
module BuildArtifactValidator {
  import opened Wrappers
  import opened Strings
  import Manifest

  /** One name `readdir` returns, with `is_dir` of the path it names. */
  datatype DirEntry = DirEntry(name: string, isDir: bool)

  /** The array `validateBuildArtifacts` returns. */
  datatype Artifacts = Artifacts(manifestExists: bool, jsBundles: nat, cssBundles: nat, manifestPath: string)

  /** The log records the validator writes (their context arrays reduced to the counts). */
  datatype LogRecord = ManifestMissing(jsFiles: nat, cssFiles: nat) | NoJavaScriptBundles
                     | ArtifactsValid(jsBundles: nat, cssBundles: nat)

  predicate IsNotDot(c: char) {
    c != '.'
  }

  /** `pathinfo($name, PATHINFO_EXTENSION)`: the text after the last dot, or `""` without one. */
  function Extension(name: string): (ext: string)
    ensures |ext| <= |name| && ext == name[|name| - |ext|..]
    ensures '.' !in ext
    ensures ext != "" ==> |ext| < |name| && name[|name| - |ext| - 1] == '.'
  {
    var upToDot := TrimRightWhere(name, IsNotDot);
    if upToDot == [] then ""
    else
      var ext := name[|upToDot|..];
      assert forall i :: 0 <= i < |ext| ==> ext[i] == name[|upToDot| + i] && IsNotDot(name[|upToDot| + i]);
      ext
  }

  /** The extension is whatever follows the final dot. */
  lemma ExtensionAfterLastDot(base: string, ext: string)
    requires '.' !in ext
    ensures Extension(base + "." + ext) == ext
  {
    var name := base + "." + ext;
    assert forall i :: |base| + 1 <= i < |name| ==> name[i] == ext[i - |base| - 1];
    TrimRightWhereIs(name, IsNotDot, |base| + 1);
  }

  /** The loop's filter: not `.` or `..`, and not a directory. */
  predicate IsFile(e: DirEntry) {
    e.name != "." && e.name != ".." && !e.isDir
  }

  /** How many files of the listing have extension `ext`. */
  function CountWithExtension(entries: seq<DirEntry>, ext: string): nat
  {
    if entries == [] then 0
    else
      var last := entries[|entries| - 1];
      CountWithExtension(entries[..|entries| - 1], ext) + (if IsFile(last) && Extension(last.name) == ext then 1 else 0)
  }

  /** How many files the listing holds. */
  function FileCount(entries: seq<DirEntry>): nat
  {
    if entries == [] then 0
    else FileCount(entries[..|entries| - 1]) + (if IsFile(entries[|entries| - 1]) then 1 else 0)
  }

  /** No file is counted twice: the two counts together never exceed the number of files. */
  lemma {:induction false} CountsWithinFiles(entries: seq<DirEntry>)
    ensures CountWithExtension(entries, "js") + CountWithExtension(entries, "css") <= FileCount(entries)
    ensures FileCount(entries) <= |entries|
    decreases |entries|
  {
    if entries != [] {
      CountsWithinFiles(entries[..|entries| - 1]);
    }
  }

  lemma CountStep(entries: seq<DirEntry>, i: nat, ext: string)
    requires i < |entries|
    ensures CountWithExtension(entries[..i + 1], ext)
            == CountWithExtension(entries[..i], ext) + (if IsFile(entries[i]) && Extension(entries[i].name) == ext then 1 else 0)
  {
    var p := entries[..i + 1];
    assert p[..|p| - 1] == entries[..i];
    assert p[|p| - 1] == entries[i];
  }

  /**
   * The `opendir`/`readdir` loop. `listing` is `None` when `opendir` fails, in which
   * case nothing is counted.
   */
  method CountBundles(listing: Option<seq<DirEntry>>) returns (js: nat, css: nat)
    ensures listing.None? ==> js == 0 && css == 0
    ensures listing.Some? ==> js == CountWithExtension(listing.value, "js") && css == CountWithExtension(listing.value, "css")
  {
    js, css := 0, 0;
    if listing.None? {
      return;
    }
    var entries := listing.value;
    var i := 0;
    while i < |entries|
      invariant 0 <= i <= |entries|
      invariant js == CountWithExtension(entries[..i], "js")
      invariant css == CountWithExtension(entries[..i], "css")
    {
      var e := entries[i];
      CountStep(entries, i, "js");
      CountStep(entries, i, "css");
      if !IsFile(e) {
        i := i + 1;
        continue;
      }
      var ext := Extension(e.name);
      if ext == "js" {
        js := js + 1;
      } else if ext == "css" {
        css := css + 1;
      }
      i := i + 1;
    }
    assert entries[..i] == entries;
  }

  function BuildDirMissingMessage(buildPath: string): string
  {
    "Build directory does not exist: " + buildPath
  }

  function ManifestMissingMessage(manifestPath: string): string
  {
    "Manifest file not found at: " + manifestPath
  }

  function ManifestPathIn(buildPath: string): string
  {
    buildPath + "/manifest.json"
  }

  /**
   * `validateBuildArtifacts`. `isDir` is `is_dir($buildPath)`, `existing` the paths
   * that exist. Returns the result or the `RuntimeException` message, and the log.
   */
  method ValidateBuildArtifacts(buildPath: string, isDir: bool, existing: set<string>, listing: Option<seq<DirEntry>>)
    returns (r: Result<Artifacts, string>, log: seq<LogRecord>)
    ensures !isDir ==> r == Failure(BuildDirMissingMessage(buildPath)) && log == []
    ensures isDir && ManifestPathIn(buildPath) !in existing ==>
              r == Failure(ManifestMissingMessage(ManifestPathIn(buildPath))) && |log| == 1 && log[0].ManifestMissing?
              && (listing.Some? ==> log == [ManifestMissing(CountWithExtension(listing.value, "js"),
                                                            CountWithExtension(listing.value, "css"))])
              && (listing.None? ==> log == [ManifestMissing(0, 0)])
    ensures r.Success? <==> isDir && ManifestPathIn(buildPath) in existing
    ensures r.Success? ==>
              r.value.manifestExists && r.value.manifestPath == ManifestPathIn(buildPath)
              && (listing.Some? ==> r.value.jsBundles == CountWithExtension(listing.value, "js")
                                    && r.value.cssBundles == CountWithExtension(listing.value, "css"))
              && (listing.None? ==> r.value.jsBundles == 0 && r.value.cssBundles == 0)
              && |log| > 0 && log[|log| - 1] == ArtifactsValid(r.value.jsBundles, r.value.cssBundles)
              && (NoJavaScriptBundles in log <==> r.value.jsBundles == 0)
  {
    if !isDir {
      return Failure(BuildDirMissingMessage(buildPath)), [];
    }
    var manifestPath := ManifestPathIn(buildPath);
    var manifestExists := manifestPath in existing;
    var js, css := CountBundles(listing);
    if !manifestExists {
      return Failure(ManifestMissingMessage(manifestPath)), [ManifestMissing(js, css)];
    }
    log := if js == 0 then [NoJavaScriptBundles] else [];
    log := log + [ArtifactsValid(js, css)];
    r := Success(Artifacts(true, js, css, manifestPath));
  }

  /** `validateManifestFormat`: the shared reading steps, with this class's messages. */
  function ValidateManifestFormat(files: Manifest.Files, path: string, decode: string -> Manifest.Decoded)
    : (r: Result<Manifest.Manifest, string>)
    ensures r.Success? <==> path in files && files[path].Readable? && decode(files[path].content).ArrayValue?
    ensures r.Success? ==> r.value == decode(files[path].content).manifest
    ensures path !in files ==> r == Failure("Manifest file not found: " + path)
    ensures path in files && files[path].Unreadable? ==> r == Failure("Cannot read manifest file: " + path)
    ensures path in files && files[path].Readable? && decode(files[path].content).InvalidJson?
            ==> r == Failure("Invalid JSON in manifest: " + decode(files[path].content).message)
    ensures path in files && files[path].Readable? && decode(files[path].content).Scalar?
            ==> r == Failure("Manifest must be a JSON object")
  {
    match Manifest.ReadJsonArray(files, path, decode)
    case Success(m) => Success(m)
    case Failure(e) => Failure(FormatErrorMessage(e, path))
  }

  /** The `RuntimeException` message for each way reading the manifest can fail. */
  function FormatErrorMessage(e: Manifest.ReadError, path: string): string
  {
    match e
    case NotFound => "Manifest file not found: " + path
    case CannotRead => "Cannot read manifest file: " + path
    case BadJson(msg) => "Invalid JSON in manifest: " + msg
    case NotAnArray(_) => "Manifest must be a JSON object"
  }

  /**
   * The validator accepts exactly the manifests the Vite extension can load into an
   * empty cache, and hands back the same array.
   */
  lemma FormatCheckAgreesWithExtension(files: Manifest.Files, path: string, decode: string -> Manifest.Decoded)
    ensures Manifest.EmptyCache.Valid()
    ensures var (loaded, _) := Manifest.Load(Manifest.EmptyCache, files, path, decode);
            var checked := ValidateManifestFormat(files, path, decode);
            (checked.Success? <==> loaded.Success?)
            && (checked.Success? ==> checked.value == loaded.value)
  {
    Manifest.EmptyCacheValid();
  }
}
