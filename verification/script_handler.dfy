/**
 * The Composer hooks: `installAssets` (npm install with up to three attempts and an
 * exponential pause between them) and `generateViteConfig` (writes `vite.config.js`,
 * and optionally `tsconfig.json`, into the project root without replacing them).
 * The filesystem, npm's outcome per attempt and the user's answers are inputs.
 */
module ScriptHandler {
  import opened Wrappers
  import opened Strings
  import opened Paths
  import Manifest

  // ---------------------------------------------------------------------------------
  // Shell quoting

  /** The body of `escapeshellarg` on POSIX: every `'` becomes `'\''`. */
  function EscapeQuotes(s: string): (r: string)
    ensures |r| >= |s|
    ensures '\'' !in s ==> r == s
  {
    if s == [] then []
    else (if s[0] == '\'' then "'\\''" else [s[0]]) + EscapeQuotes(s[1..])
  }

  /** `escapeshellarg($s)`: the argument in single quotes. */
  function EscapeShellArg(s: string): (r: string)
    ensures |r| >= |s| + 2 && r[0] == '\'' && r[|r| - 1] == '\''
  {
    "'" + EscapeQuotes(s) + "'"
  }

  predicate IsNotSingleQuote(c: char) {
    c != '\''
  }

  /**
   * How a POSIX shell reads a word made only of single-quoted runs and backslash
   * escapes; `None` for anything else (an unquoted space or metacharacter, an
   * unterminated quote). Being `Some` means the text is one word with no expansion.
   */
  function ShellWord(s: string): Option<string>
    decreases |s|
  {
    if s == [] then Some([])
    else if s[0] == '\'' then
      var n := Run(s[1..], IsNotSingleQuote);
      if n == |s| - 1 then None
      else
        var rest :- ShellWord(s[n + 2..]);
        Some(s[1..n + 1] + rest)
    else if s[0] == '\\' && |s| >= 2 then
      var rest :- ShellWord(s[2..]);
      Some([s[1]] + rest)
    else None
  }

  lemma {:induction false} EscapeQuotesAppend(a: string, b: string)
    ensures EscapeQuotes(a + b) == EscapeQuotes(a) + EscapeQuotes(b)
    decreases |a|
  {
    if a == [] {
      assert a + b == b;
    } else {
      assert (a + b)[0] == a[0];
      assert (a + b)[1..] == a[1..] + b;
      EscapeQuotesAppend(a[1..], b);
    }
  }

  /** The pieces of `'a'rest` as `ShellWord` takes it apart. */
  lemma QuotedRunPieces(a: string, rest: string)
    requires '\'' !in a
    ensures var s := "'" + a + "'" + rest;
            s[0] == '\'' && Run(s[1..], IsNotSingleQuote) == |a| && |a| < |s| - 1
            && s[1..|a| + 1] == a && s[|a| + 2..] == rest
  {
    var s := "'" + a + "'" + rest;
    var t := s[1..];
    assert t == a + "'" + rest;
    assert forall i :: 0 <= i < |a| ==> t[i] == a[i] && IsNotSingleQuote(a[i]);
    assert t[|a|] == '\'';
    RunIs(t, IsNotSingleQuote, |a|);
  }

  /** One quoted run at the front: its text, then the word after the closing quote. */
  lemma ShellWordQuoteStep(s: string, n: nat)
    requires |s| > 0 && s[0] == '\'' && n == Run(s[1..], IsNotSingleQuote) && n < |s| - 1
    requires ShellWord(s[n + 2..]).Some?
    ensures ShellWord(s) == Some(s[1..n + 1] + ShellWord(s[n + 2..]).value)
  {
  }

  /** A quoted run followed by a word reads as the run's text followed by the word. */
  lemma ShellWordQuotedRun(a: string, rest: string)
    requires '\'' !in a
    requires ShellWord(rest).Some?
    ensures ShellWord("'" + a + "'" + rest) == Some(a + ShellWord(rest).value)
  {
    QuotedRunPieces(a, rest);
    ShellWordQuoteStep("'" + a + "'" + rest, |a|);
  }

  /** A backslash-escaped character followed by a word reads as the character followed by the word. */
  lemma ShellWordEscaped(c: char, rest: string)
    requires ShellWord(rest).Some?
    ensures ShellWord(['\\', c] + rest) == Some([c] + ShellWord(rest).value)
  {
    var s := ['\\', c] + rest;
    assert s[2..] == rest;
  }

  /** Quoting text whose first quote follows `a` closes the quote, escapes it, and quotes the rest. */
  lemma EscapeQuotesAtQuote(b: string)
    ensures EscapeQuotes("'" + b) == "'\\''" + EscapeQuotes(b)
  {
    var qb := "'" + b;
    assert qb[0] == '\'' && qb[1..] == b;
  }

  lemma RegroupQuoted(a: string, e: string)
    ensures "'" + (a + ("'\\''" + e)) + "'" == "'" + a + "'" + (['\\', '\''] + ("'" + e + "'"))
  {
  }

  lemma EscapeShellArgAtQuote(a: string, b: string)
    requires '\'' !in a
    ensures EscapeShellArg(a + "'" + b) == "'" + a + "'" + (['\\', '\''] + EscapeShellArg(b))
  {
    var e := EscapeQuotes(b);
    assert EscapeQuotes(a + "'" + b) == a + ("'\\''" + e) by {
      assert a + "'" + b == a + ("'" + b);
      EscapeQuotesAppend(a, "'" + b);
      EscapeQuotesAtQuote(b);
    }
    RegroupQuoted(a, e);
  }

  lemma QuoteFreePrefix(s: string, n: nat)
    requires n <= |s|
    requires forall i :: 0 <= i < n ==> IsNotSingleQuote(s[i])
    ensures '\'' !in s[..n]
  {
    assert forall i :: 0 <= i < n ==> s[..n][i] == s[i];
  }

  lemma SplitAround(s: string, n: nat)
    requires n < |s|
    ensures s == s[..n] + [s[n]] + s[n + 1..]
  {
  }

  /** Any text is quote-free up to its first quote. */
  lemma SplitAtFirstQuote(s: string)
    ensures var n := Run(s, IsNotSingleQuote);
            '\'' !in s[..n] && (n < |s| ==> s == s[..n] + "'" + s[n + 1..])
  {
    var n := Run(s, IsNotSingleQuote);
    QuoteFreePrefix(s, n);
    if n < |s| {
      SplitAround(s, n);
      assert [s[n]] == "'";
    }
  }

  lemma RoundTripWithoutQuote(s: string)
    requires '\'' !in s
    ensures ShellWord(EscapeShellArg(s)) == Some(s)
  {
    assert ShellWord([]) == Some([]);
    ShellWordQuotedRun(s, []);
    assert "'" + s + "'" + [] == EscapeShellArg(s);
    assert s + [] == s;
  }

  /** A quoted run, then an escaped quote, then a word. */
  lemma QuotedThenEscapedQuote(a: string, e: string, b: string)
    requires '\'' !in a
    requires ShellWord(e) == Some(b)
    ensures ShellWord("'" + a + "'" + (['\\', '\''] + e)) == Some(a + "'" + b)
  {
    ShellWordEscaped('\'', e);
    ShellWordQuotedRun(a, ['\\', '\''] + e);
    assert a + (['\''] + b) == a + "'" + b;
  }

  lemma RoundTripAtQuote(a: string, b: string)
    requires '\'' !in a
    requires ShellWord(EscapeShellArg(b)) == Some(b)
    ensures ShellWord(EscapeShellArg(a + "'" + b)) == Some(a + "'" + b)
  {
    EscapeShellArgAtQuote(a, b);
    QuotedThenEscapedQuote(a, EscapeShellArg(b), b);
  }

  /** The shell reads `escapeshellarg($s)` back as exactly `$s`. */
  lemma {:induction false} EscapeShellArgRoundTrip(s: string)
    ensures ShellWord(EscapeShellArg(s)) == Some(s)
    decreases |s|
  {
    var n := Run(s, IsNotSingleQuote);
    SplitAtFirstQuote(s);
    if n == |s| {
      assert s[..n] == s;
      RoundTripWithoutQuote(s);
    } else {
      EscapeShellArgRoundTrip(s[n + 1..]);
      RoundTripAtQuote(s[..n], s[n + 1..]);
    }
  }

  const NvmMarker: string := ".nvm"

  /** The nvm install script, with each path passed through `escapeshellarg`. */
  function InstallScript(npmPath: string): string
  {
    "export PATH=" + EscapeShellArg(Dirname(npmPath)) + ":$PATH && export NVM_DIR="
      + EscapeShellArg(Dirname(Dirname(npmPath))) + " && " + EscapeShellArg(npmPath) + " install"
  }

  /** `prepareInstallCommand`: `npm install`, through bash when npm lives under nvm. */
  function InstallCommand(npmPath: string): (cmd: seq<string>)
    ensures !Contains(npmPath, NvmMarker) ==> cmd == [npmPath, "install"]
    ensures Contains(npmPath, NvmMarker) ==> cmd == ["bash", "-c", InstallScript(npmPath)]
  {
    if Contains(npmPath, NvmMarker) then ["bash", "-c", InstallScript(npmPath)] else [npmPath, "install"]
  }

  /**
   * Whatever characters the paths hold, the script is the fixed template with three
   * single shell words spliced in, and the shell reads each back as the original path.
   */
  lemma InstallScriptQuotesEachPath(npmPath: string)
    ensures var node := EscapeShellArg(Dirname(npmPath));
            var nvm := EscapeShellArg(Dirname(Dirname(npmPath)));
            var npm := EscapeShellArg(npmPath);
            InstallScript(npmPath) == "export PATH=" + node + ":$PATH && export NVM_DIR=" + nvm + " && " + npm + " install"
            && ShellWord(node) == Some(Dirname(npmPath))
            && ShellWord(nvm) == Some(Dirname(Dirname(npmPath)))
            && ShellWord(npm) == Some(npmPath)
  {
    EscapeShellArgRoundTrip(Dirname(npmPath));
    EscapeShellArgRoundTrip(Dirname(Dirname(npmPath)));
    EscapeShellArgRoundTrip(npmPath);
  }

  // ---------------------------------------------------------------------------------
  // Where the hooks think the bundle is

  /** A directory entry name: not empty, not `.` or `..`, without a separator. */
  predicate IsName(c: string) {
    c != "" && c != "." && c != ".." && Separator !in c
  }

  /** A path of plain names, as the operating system stores it. */
  predicate Resolved(cs: seq<string>) {
    forall i :: 0 <= i < |cs| ==> IsName(cs[i])
  }

  /** How the operating system follows one component: `..` goes up, `.` and empty stay. */
  function Step(dir: seq<string>, c: string): seq<string>
  {
    if c == ".." then (if dir == [] then [] else dir[..|dir| - 1])
    else if c == "" || c == "." then dir
    else dir + [c]
  }

  /** The directory a component path leads to from `dir`. */
  function ResolveFrom(dir: seq<string>, cs: seq<string>): seq<string>
    decreases |cs|
  {
    if cs == [] then dir else ResolveFrom(Step(dir, cs[0]), cs[1..])
  }

  lemma {:induction false} ResolveFromAppend(dir: seq<string>, a: seq<string>, b: seq<string>)
    ensures ResolveFrom(dir, a + b) == ResolveFrom(ResolveFrom(dir, a), b)
    decreases |a|
  {
    if a == [] {
      assert a + b == b;
    } else {
      assert (a + b)[0] == a[0];
      assert (a + b)[1..] == a[1..] + b;
      ResolveFromAppend(Step(dir, a[0]), a[1..], b);
    }
  }

  lemma {:induction false} ResolveFromNames(dir: seq<string>, cs: seq<string>)
    requires Resolved(cs)
    ensures ResolveFrom(dir, cs) == dir + cs
    decreases |cs|
  {
    if cs != [] {
      assert Resolved(cs[1..]) by {
        assert forall i :: 0 <= i < |cs| - 1 ==> cs[1..][i] == cs[i + 1];
      }
      ResolveFromNames(dir + [cs[0]], cs[1..]);
      assert dir + [cs[0]] + cs[1..] == dir + cs;
    }
  }

  /** Where the hook file lives, relative to the bundle directory. */
  const HookDir: seq<string> := ["src", "Composer"]

  /** `installAssets` takes `__DIR__ . '/../../..'` as the bundle directory. */
  function InstallerBundleDirAsWritten(hookDir: seq<string>): seq<string>
  {
    ResolveFrom([], hookDir + ["..", "..", ".."])
  }

  /** The bundle directory: two levels above the hook file's directory. */
  function InstallerBundleDir(hookDir: seq<string>): seq<string>
  {
    ResolveFrom([], hookDir + ["..", ".."])
  }

  lemma ResolveCons(dir: seq<string>, c: string, cs: seq<string>)
    ensures ResolveFrom(dir, [c] + cs) == ResolveFrom(Step(dir, c), cs)
  {
    assert ([c] + cs)[1..] == cs;
  }

  lemma ResolveUpTwo(dir: seq<string>)
    ensures ResolveFrom(dir, HookDir + ["..", ".."]) == dir
  {
    var d1 := dir + ["src"];
    var d2 := d1 + ["Composer"];
    assert d2[..|d2| - 1] == d1;
    assert d1[..|d1| - 1] == dir;
    assert HookDir + ["..", ".."] == ["src"] + (["Composer"] + ([".."] + [".."]));
    ResolveCons(dir, "src", ["Composer"] + ([".."] + [".."]));
    ResolveCons(d1, "Composer", [".."] + [".."]);
    ResolveCons(d2, "..", [".."]);
    assert [".."] == [".."] + [];
    ResolveCons(d1, "..", []);
  }

  lemma ResolveUpThree(dir: seq<string>)
    requires |dir| > 0
    ensures ResolveFrom(dir, HookDir + ["..", "..", ".."]) == dir[..|dir| - 1]
  {
    assert HookDir + ["..", "..", ".."] == (HookDir + ["..", ".."]) + [".."];
    ResolveFromAppend(dir, HookDir + ["..", ".."], [".."]);
    ResolveUpTwo(dir);
    assert [".."] == [".."] + [];
    ResolveCons(dir, "..", []);
  }

  /** As written, the installer looks one directory above the bundle. */
  lemma InstallerAsWrittenMissesBundle(bundle: seq<string>)
    requires Resolved(bundle) && |bundle| > 0
    ensures InstallerBundleDirAsWritten(bundle + HookDir) == bundle[..|bundle| - 1]
    ensures InstallerBundleDirAsWritten(bundle + HookDir) != bundle
  {
    var up := HookDir + ["..", "..", ".."];
    ResolveFromAppend([], bundle, up);
    ResolveFromNames([], bundle);
    assert bundle + HookDir + ["..", "..", ".."] == bundle + up;
    assert [] + bundle == bundle;
    ResolveUpThree(bundle);
  }

  /** The corrected directory is the bundle itself. */
  lemma InstallerFindsBundle(bundle: seq<string>)
    requires Resolved(bundle)
    ensures InstallerBundleDir(bundle + HookDir) == bundle
  {
    var up := HookDir + ["..", ".."];
    ResolveFromAppend([], bundle, up);
    ResolveFromNames([], bundle);
    assert bundle + HookDir + ["..", ".."] == bundle + up;
    assert [] + bundle == bundle;
    ResolveUpTwo(bundle);
  }

  // ---------------------------------------------------------------------------------
  // installAssets

  const MaxAttempts: nat := 3
  const FirstRetryDelay: nat := 2

  function Pow2(k: nat): (r: nat)
    ensures r >= 1
  {
    if k == 0 then 1 else 2 * Pow2(k - 1)
  }

  /** The pause after the `k`-th failed attempt (from 0): 2 s, doubling each time. */
  function RetryDelay(k: nat): nat
  {
    FirstRetryDelay * Pow2(k)
  }

  datatype InstallOutcome = NoPackageJson | AlreadyInstalled | NpmNotFound | Installed(attempt: nat) | GaveUp

  /**
   * `installAssets`. `bundle` is where the hook looks (see `InstallerBundleDir`);
   * `files` and `dirs` are the existing paths; `succeeds(k)` is whether the `k`-th
   * run of the install command succeeds. Returns the outcome, the commands run and
   * the pauses taken, in order.
   */
  method InstallAssets(bundle: seq<string>, files: set<seq<string>>, dirs: set<seq<string>>,
                       npm: Option<string>, succeeds: nat -> bool)
    returns (outcome: InstallOutcome, runs: seq<seq<string>>, sleeps: seq<nat>)
    ensures outcome == NoPackageJson <==> bundle + ["package.json"] !in files
    ensures outcome == AlreadyInstalled <==> bundle + ["package.json"] in files && bundle + ["node_modules"] in dirs
    ensures outcome == NpmNotFound <==>
              bundle + ["package.json"] in files && bundle + ["node_modules"] !in dirs && npm.None?
    ensures outcome.Installed? ==>
              1 <= outcome.attempt <= MaxAttempts && succeeds(outcome.attempt)
              && (forall k :: 1 <= k < outcome.attempt ==> !succeeds(k))
              && |runs| == outcome.attempt
    ensures outcome == GaveUp ==> (forall k :: 1 <= k <= MaxAttempts ==> !succeeds(k)) && |runs| == MaxAttempts
    ensures npm.Some? && bundle + ["package.json"] in files && bundle + ["node_modules"] !in dirs
            ==> outcome.Installed? || outcome == GaveUp
    ensures forall i :: 0 <= i < |runs| ==> npm.Some? && runs[i] == InstallCommand(npm.value)
    ensures |sleeps| == if outcome.Installed? then |runs| - 1 else if outcome == GaveUp then MaxAttempts - 1 else 0
    ensures forall i :: 0 <= i < |sleeps| ==> sleeps[i] == RetryDelay(i)
  {
    runs, sleeps := [], [];
    if bundle + ["package.json"] !in files {
      return NoPackageJson, runs, sleeps;
    }
    if bundle + ["node_modules"] in dirs {
      return AlreadyInstalled, runs, sleeps;
    }
    if npm.None? {
      return NpmNotFound, runs, sleeps;
    }
    outcome, runs, sleeps := RetryInstall(InstallCommand(npm.value), succeeds);
  }

  /** The attempt loop of `installAssets`: run `command` until it succeeds, at most three times. */
  method RetryInstall(command: seq<string>, succeeds: nat -> bool)
    returns (outcome: InstallOutcome, runs: seq<seq<string>>, sleeps: seq<nat>)
    ensures outcome.Installed? || outcome == GaveUp
    ensures outcome.Installed? ==>
              1 <= outcome.attempt <= MaxAttempts && succeeds(outcome.attempt)
              && (forall k :: 1 <= k < outcome.attempt ==> !succeeds(k))
              && |runs| == outcome.attempt && |sleeps| == |runs| - 1
    ensures outcome == GaveUp ==>
              (forall k :: 1 <= k <= MaxAttempts ==> !succeeds(k)) && |runs| == MaxAttempts && |sleeps| == MaxAttempts - 1
    ensures forall i :: 0 <= i < |runs| ==> runs[i] == command
    ensures forall i :: 0 <= i < |sleeps| ==> sleeps[i] == RetryDelay(i)
  {
    runs, sleeps := [], [];
    var delay := FirstRetryDelay;
    var attempt := 1;
    while attempt <= MaxAttempts
      invariant 1 <= attempt <= MaxAttempts + 1
      invariant |runs| == attempt - 1
      invariant forall i :: 0 <= i < |runs| ==> runs[i] == command
      invariant forall k :: 1 <= k < attempt ==> !succeeds(k)
      invariant |sleeps| == if attempt <= MaxAttempts then attempt - 1 else MaxAttempts - 1
      invariant forall i :: 0 <= i < |sleeps| ==> sleeps[i] == RetryDelay(i)
      invariant delay == RetryDelay(|sleeps|)
    {
      runs := runs + [command];
      if succeeds(attempt) {
        return Installed(attempt), runs, sleeps;
      }
      if attempt < MaxAttempts {
        sleeps := sleeps + [delay];
        delay := delay * 2;
      }
      attempt := attempt + 1;
    }
    outcome := GaveUp;
  }

  /** The seconds spent in `sleep` over a run. */
  function TotalPause(sleeps: seq<nat>): nat
  {
    if sleeps == [] then 0 else sleeps[0] + TotalPause(sleeps[1..])
  }

  /** Whatever happens, the installer pauses 6 seconds at most. */
  lemma BackoffIsBounded(sleeps: seq<nat>)
    requires |sleeps| <= MaxAttempts - 1
    requires forall i :: 0 <= i < |sleeps| ==> sleeps[i] == RetryDelay(i)
    ensures |sleeps| == 0 || sleeps[0] == 2
    ensures |sleeps| < 2 || sleeps[1] == 4
    ensures TotalPause(sleeps) <= 6
  {
    if |sleeps| > 0 {
      assert TotalPause(sleeps) == sleeps[0] + TotalPause(sleeps[1..]);
      if |sleeps| > 1 {
        assert sleeps[1..][0] == sleeps[1] == RetryDelay(1);
        assert sleeps[1..][1..] == [];
      }
    }
  }

  // ---------------------------------------------------------------------------------
  // generateViteConfig

  /**
   * `generateViteConfig` as written: `dirname()` of `__DIR__ . '/../../..'`, three
   * levels under `/vendor/` and two otherwise. `dirname` only strips text, so the
   * three `..` it removes are the ones just appended.
   */
  function GenerationRootAsWritten(hookDir: string): string
  {
    var b := NormalizePath(hookDir + "/../../..");
    DirnameLevels(b, RootLevels(b))
  }

  /** The hook's directory inside a bundle installed under `root/vendor/<vendor>/<package>`. */
  function VendorHookDir(root: string, vendor: string, package: string): string
  {
    VendorBundle(root, vendor, package) + "/src/Composer"
  }

  /** The hook directory of a Composer-installed bundle: plain, under `/vendor/`, ending in a name. */
  lemma VendorHookDirShape(root: string, vendor: string, package: string)
    requires IsRootDir(root) && IsComponent(vendor) && IsComponent(package)
    ensures var d := VendorHookDir(root, vendor, package);
            NoBackslash(d) && Contains(d, VendorMarker) && d[|d| - 1] == 'r' && |d| > |root|
  {
    var b := VendorBundle(root, vendor, package);
    var d := VendorHookDir(root, vendor, package);
    assert b == root + "/" + "vendor" + "/" + vendor + "/" + package;
    assert NoBackslash(b);
    assert OccursAt(b, VendorMarker, |root|);
    ContainsInContext([], b, "/src/Composer", VendorMarker);
    assert [] + b + "/src/Composer" == d;
  }

  /** Appending `/../../..` to a plain path under `/vendor/`: nothing to normalise, three levels to go up. */
  lemma UpThreeFromVendorPath(d: string)
    requires NoBackslash(d) && Contains(d, VendorMarker)
    ensures var p := d + "/../../..";
            NormalizePath(p) == p && RootLevels(p) == 3 && p == d + "/" + ".." + "/" + ".." + "/" + ".."
  {
    var p := d + "/../../..";
    assert NoBackslash(p);
    NormalizeFixesPlainPaths(p);
    ContainsInContext([], d, "/../../..", VendorMarker);
    assert [] + d + "/../../.." == p;
  }

  /** As written, a Composer-installed bundle writes `vite.config.js` into its own `src/Composer`. */
  lemma GenerationRootAsWrittenStaysInBundle(root: string, vendor: string, package: string)
    requires IsRootDir(root) && IsComponent(vendor) && IsComponent(package)
    ensures GenerationRootAsWritten(VendorHookDir(root, vendor, package)) == VendorHookDir(root, vendor, package)
    ensures GenerationRootAsWritten(VendorHookDir(root, vendor, package)) != root
  {
    var d := VendorHookDir(root, vendor, package);
    VendorHookDirShape(root, vendor, package);
    UpThreeFromVendorPath(d);
    DirnameThreeLevels(d, "..", "..", "..");
  }

  /** The project root as intended: the bundle is two levels up, then the resolver's rule applies. */
  function GenerationRoot(hookDir: string): string
  {
    ProjectRoot(DirnameLevels(hookDir, 2))
  }

  /** The corrected root of a Composer-installed bundle is the project root. */
  lemma GenerationRootOfVendorBundle(root: string, vendor: string, package: string)
    requires IsRootDir(root) && IsComponent(vendor) && IsComponent(package)
    ensures GenerationRoot(VendorHookDir(root, vendor, package)) == root
  {
    var b := VendorBundle(root, vendor, package);
    assert b[|b| - 1] == package[|package| - 1];
    assert VendorHookDir(root, vendor, package) == b + "/" + "src" + "/" + "Composer";
    DirnameTwoLevels(b, "src", "Composer");
    ProjectRootOfVendorBundle(root, vendor, package);
  }

  /** What `file_get_contents` gives: `false` is written as the empty string. */
  function TemplateText(t: Manifest.FileState): string
  {
    match t
    case Unreadable => ""
    case Readable(c) => c
  }

  /** What the hook needs from outside: templates, the TypeScript check, the user's answer. */
  datatype HookInputs = HookInputs(viteTemplate: Option<Manifest.FileState>,
                                   tsTemplate: Option<Manifest.FileState>,
                                   tsNodeTemplate: Option<Manifest.FileState>,
                                   hasTypeScript: bool, confirmTypeScript: bool, tsWriteSucceeds: bool)

  /** The text the hook attempts to write to each of the three files in the project root. */
  datatype Generated = Generated(root: string, viteConfig: Option<string>, tsConfig: Option<string>,
                                 tsConfigNode: Option<string>)

  /**
   * `generateViteConfig`. `existing` holds the paths that exist before the hook runs;
   * a template is `None` when it does not exist.
   */
  function GenerateViteConfig(hookDir: string, existing: set<string>, inputs: HookInputs): (g: Generated)
    ensures g.root == GenerationRoot(hookDir)
    ensures g.viteConfig.Some? <==> g.root + "/vite.config.js" !in existing && inputs.viteTemplate.Some?
    ensures g.viteConfig.Some? ==> g.viteConfig.value == TemplateText(inputs.viteTemplate.value)
    ensures g.tsConfig.Some? <==>
              g.root + "/tsconfig.json" !in existing && inputs.tsTemplate.Some?
              && (inputs.hasTypeScript || inputs.confirmTypeScript)
    ensures g.tsConfig.Some? ==> g.tsConfig.value == TemplateText(inputs.tsTemplate.value)
    ensures g.tsConfigNode.Some? <==> g.tsConfig.Some? && inputs.tsWriteSucceeds && inputs.tsNodeTemplate.Some?
    ensures g.tsConfigNode.Some? ==> g.tsConfigNode.value == TemplateText(inputs.tsNodeTemplate.value)
  {
    var root := GenerationRoot(hookDir);
    var vite := if root + "/vite.config.js" !in existing && inputs.viteTemplate.Some?
                then Some(TemplateText(inputs.viteTemplate.value)) else None;
    var ts := if root + "/tsconfig.json" !in existing && inputs.tsTemplate.Some?
                 && (inputs.hasTypeScript || inputs.confirmTypeScript)
              then Some(TemplateText(inputs.tsTemplate.value)) else None;
    var node := if ts.Some? && inputs.tsWriteSucceeds && inputs.tsNodeTemplate.Some?
                then Some(TemplateText(inputs.tsNodeTemplate.value)) else None;
    Generated(root, vite, ts, node)
  }

  /**
   * The files the hook attempts to write, by path. A failed `file_put_contents` for
   * `tsconfig.json` still counts as attempted; it only stops `tsconfig.node.json`.
   */
  function Writes(g: Generated): (w: map<string, string>)
    ensures g.viteConfig.Some? ==> g.root + "/vite.config.js" in w && w[g.root + "/vite.config.js"] == g.viteConfig.value
    ensures forall p :: p in w ==>
              (p == g.root + "/vite.config.js" && g.viteConfig.Some?)
              || (p == g.root + "/tsconfig.json" && g.tsConfig.Some?)
              || (p == g.root + "/tsconfig.node.json" && g.tsConfigNode.Some?)
  {
    assert |g.root + "/vite.config.js"| != |g.root + "/tsconfig.json"|;
    assert |g.root + "/vite.config.js"| != |g.root + "/tsconfig.node.json"|;
    var w1: map<string, string> := if g.viteConfig.Some? then map[g.root + "/vite.config.js" := g.viteConfig.value] else map[];
    var w2 := if g.tsConfig.Some? then w1[g.root + "/tsconfig.json" := g.tsConfig.value] else w1;
    if g.tsConfigNode.Some? then w2[g.root + "/tsconfig.node.json" := g.tsConfigNode.value] else w2
  }

  /** `vite.config.js` and `tsconfig.json` that already exist are never written. */
  lemma GenerateNeverOverwrites(hookDir: string, existing: set<string>, inputs: HookInputs)
    ensures var g := GenerateViteConfig(hookDir, existing, inputs);
            forall p :: p in Writes(g) && p in existing ==> p == g.root + "/tsconfig.node.json"
  {
  }

  /** `tsconfig.node.json` has no such guard: an existing one is replaced. */
  lemma GenerateReplacesTsConfigNode(hookDir: string, inputs: HookInputs, text: string)
    requires inputs.tsTemplate.Some? && inputs.hasTypeScript && inputs.tsWriteSucceeds
    requires inputs.tsNodeTemplate == Some(Manifest.Readable(text))
    ensures var node := GenerationRoot(hookDir) + "/tsconfig.node.json";
            GenerateViteConfig(hookDir, {node}, inputs).tsConfigNode == Some(text)
  {
    var root := GenerationRoot(hookDir);
    assert |root + "/tsconfig.json"| != |root + "/tsconfig.node.json"|;
  }

  /** In a Composer install the configuration lands in the project root, from the template. */
  lemma GeneratedConfigInProjectRoot(root: string, vendor: string, package: string, template: string, inputs: HookInputs)
    requires IsRootDir(root) && IsComponent(vendor) && IsComponent(package)
    requires inputs.viteTemplate == Some(Manifest.Readable(template))
    ensures var g := GenerateViteConfig(VendorHookDir(root, vendor, package), {}, inputs);
            g.root == root && Writes(g)[root + "/vite.config.js"] == template
  {
    var g := GenerateViteConfig(VendorHookDir(root, vendor, package), {}, inputs);
    GenerationRootOfVendorBundle(root, vendor, package);
    assert g.viteConfig == Some(template);
  }
}
