/**
 * The `react:build` console command: where it runs npm, which npm command it runs for
 * the `--dev`, `--watch` and `--prod` options (directly or through bash when npm lives
 * under nvm), how it reads the Node.js major version, and what it reports afterwards.
 * Processes, the console and the filesystem are inputs.
 */
module AssetsBuildCommand {
  import opened Wrappers
  import opened Strings
  import opened Paths

  const Success: int := 0
  const Failure: int := 1

  /** The three flags of the command line. */
  datatype Options = Options(watch: bool, dev: bool, prod: bool)

  /** The flags after `--prod` has overridden `--dev`, and whether the conflict was reported. */
  datatype Reconciled = Reconciled(options: Options, conflictWarning: bool)

  /** `--prod` together with `--dev` clears `dev` and warns; nothing else changes. */
  function Reconcile(o: Options): (r: Reconciled)
    ensures r.conflictWarning <==> o.prod && o.dev
    ensures r.options.watch == o.watch && r.options.prod == o.prod
    ensures r.options.dev <==> o.dev && !o.prod
  {
    if o.prod && o.dev then Reconciled(o.(dev := false), true) else Reconciled(o, false)
  }

  /** Reconciling twice changes nothing more, and never warns the second time. */
  lemma ReconcileSettles(o: Options)
    ensures Reconcile(Reconcile(o).options).options == Reconcile(o).options
    ensures !Reconcile(Reconcile(o).options).conflictWarning
  {
  }

  const NvmMarker: string := ".nvm"

  /** `strpos($npmPath, '.nvm') !== false`. */
  predicate UsesNvm(npmPath: string) {
    Contains(npmPath, NvmMarker)
  }

  /** The bash script that puts nvm's node first on the PATH, then runs `npm <action>`. */
  function NvmScript(npmPath: string, action: string): string
  {
    "export PATH=\"" + Dirname(npmPath) + ":$PATH\" && export NVM_DIR=\"" + Dirname(Dirname(npmPath))
      + "\" && " + npmPath + " " + action
  }

  /** `prepareNpmCommand`, branch by branch as written. */
  function NpmCommand(npmPath: string, watch: bool, dev: bool, prod: bool): seq<string>
  {
    if UsesNvm(npmPath) then
      if dev then ["bash", "-c", NvmScript(npmPath, "run dev")]
      else if watch then ["bash", "-c", NvmScript(npmPath, "run build:watch")]
      else if prod then ["bash", "-c", NvmScript(npmPath, "run build")]
      else ["bash", "-c", NvmScript(npmPath, "run build")]
    else if dev then [npmPath, "run", "dev"]
    else if watch then [npmPath, "run", "build:watch"]
    else [npmPath, "run", "build"]
  }

  /** The npm script a flag combination selects: `dev` over `watch` over the plain build. */
  function NpmScriptName(watch: bool, dev: bool): (name: string)
    ensures name == "dev" <==> dev
    ensures name == "build:watch" <==> !dev && watch
    ensures name == "build" <==> !dev && !watch
  {
    if dev then "dev" else if watch then "build:watch" else "build"
  }

  /**
   * Every branch runs `npm run <script>` for the script the precedence selects, directly
   * or as the tail of a three-word bash command; `--prod` never changes the command.
   */
  lemma NpmCommandShape(npmPath: string, watch: bool, dev: bool, prod: bool)
    ensures !UsesNvm(npmPath) ==> NpmCommand(npmPath, watch, dev, prod) == [npmPath, "run", NpmScriptName(watch, dev)]
    ensures UsesNvm(npmPath) ==>
              NpmCommand(npmPath, watch, dev, prod) == ["bash", "-c", NvmScript(npmPath, "run " + NpmScriptName(watch, dev))]
    ensures NpmCommand(npmPath, watch, dev, prod) == NpmCommand(npmPath, watch, dev, false)
  {
    assert "run " + "dev" == "run dev";
    assert "run " + "build:watch" == "run build:watch";
    assert "run " + "build" == "run build";
  }

  /** `prepareInstallCommand`: `npm install`, through bash under nvm. */
  function InstallCommand(npmPath: string): (cmd: seq<string>)
    ensures !UsesNvm(npmPath) ==> cmd == [npmPath, "install"]
    ensures UsesNvm(npmPath) ==> |cmd| == 3 && cmd[0] == "bash" && cmd[1] == "-c"
  {
    if UsesNvm(npmPath) then ["bash", "-c", NvmScript(npmPath, "install")] else [npmPath, "install"]
  }

  /** Under nvm, installing and building set up the same environment and differ only in the npm action. */
  lemma InstallAndBuildShareEnvironment(npmPath: string, watch: bool, dev: bool, prod: bool)
    requires UsesNvm(npmPath)
    ensures var prefix := "export PATH=\"" + Dirname(npmPath) + ":$PATH\" && export NVM_DIR=\""
                          + Dirname(Dirname(npmPath)) + "\" && " + npmPath + " ";
            StartsWith(InstallCommand(npmPath)[2], prefix)
            && StartsWith(NpmCommand(npmPath, watch, dev, prod)[2], prefix)
            && InstallCommand(npmPath)[2][|prefix|..] == "install"
            && NpmCommand(npmPath, watch, dev, prod)[2][|prefix|..] == "run " + NpmScriptName(watch, dev)
  {
    var prefix := "export PATH=\"" + Dirname(npmPath) + ":$PATH\" && export NVM_DIR=\""
                  + Dirname(Dirname(npmPath)) + "\" && " + npmPath + " ";
    NpmCommandShape(npmPath, watch, dev, prod);
    var install := InstallCommand(npmPath)[2];
    var build := NpmCommand(npmPath, watch, dev, prod)[2];
    assert install == prefix + "install";
    assert build == prefix + ("run " + NpmScriptName(watch, dev));
    assert install[..|prefix|] == prefix && install[|prefix|..] == "install";
    assert build[..|prefix|] == prefix && build[|prefix|..] == "run " + NpmScriptName(watch, dev);
  }

  /** The version text the warning shows: the trimmed output without its leading `v`s. */
  function VersionText(output: string): string
  {
    TrimLeft(Trim(output), 'v')
  }

  /** `(int) explode('.', ltrim(trim($output), 'v'))[0]`. */
  function NodeMajor(output: string): int
  {
    PhpIntCast(FirstField(VersionText(output), '.'))
  }

  const MinimumNodeMajor: int := 18

  /** `checkNodeVersion` warns exactly when the major version is below 18. */
  predicate NodeVersionWarning(output: string) {
    NodeMajor(output) < MinimumNodeMajor
  }

  /** Trimming keeps a prefix that neither starts nor ends with whitespace. */
  lemma TrimKeepsPrefix(p: string, rest: string)
    requires |p| > 0 && !IsTrimSpace(p[0]) && !IsTrimSpace(p[|p| - 1])
    ensures |Trim(p + rest)| >= |p| && Trim(p + rest) == p + Trim(p + rest)[|p|..]
  {
    var s := p + rest;
    var r := TrimRightWhere(s, IsTrimSpace);
    assert s[|p| - 1] == p[|p| - 1];
    assert !IsTrimSpace(s[|p| - 1]);
    assert |r| >= |p|;
    assert r[..|p|] == s[..|p|] == p;
    assert r[0] == p[0];
    assert TrimLeftWhere(r, IsTrimSpace) == r;
    assert r == r[..|p|] + r[|p|..];
  }

  /** `ltrim($s, 'v')` removes the single `v` in front of a digit. */
  lemma TrimLeftVersionMark(digits: string, tail: string)
    requires |digits| > 0 && AllDigits(digits)
    ensures TrimLeft("v" + digits + tail, 'v') == digits + tail
  {
    var s := "v" + digits + tail;
    assert s[1..] == digits + tail;
    assert (digits + tail)[0] == digits[0];
    assert TrimLeftWhere(s[1..], x => x == 'v') == s[1..];
  }

  /** `explode('.', ...)[0]` of digits followed by a dot is the digits. */
  lemma FirstFieldOfDigits(digits: string, tail: string)
    requires AllDigits(digits)
    ensures FirstField(digits + "." + tail, '.') == digits
  {
    var s := digits + "." + tail;
    var f := FirstField(s, '.');
    assert s[|digits|] == '.';
    assert forall i :: 0 <= i < |digits| ==> s[i] == digits[i] && IsDigit(s[i]);
    assert |f| == |digits|;
    assert f == s[..|digits|] == digits;
  }

  /** `node --version` prints `v<major>.<rest>`; its major number is read back exactly. */
  lemma NodeMajorOfVersion(major: nat, rest: string)
    ensures NodeMajor("v" + NatToString(major) + "." + rest) == major
    ensures NodeVersionWarning("v" + NatToString(major) + "." + rest) <==> major < 18
  {
    MajorFieldOfVersion(NatToString(major), rest);
    PhpIntCastOfNatString(major);
  }

  /** The first dot-separated field of the version text of `v<digits>.<rest>` is the digits. */
  lemma MajorFieldOfVersion(digits: string, rest: string)
    requires |digits| > 0 && AllDigits(digits)
    ensures FirstField(VersionText("v" + digits + "." + rest), '.') == digits
  {
    var p := "v" + digits + ".";
    assert "v" + digits + "." + rest == p + rest;
    TrimKeepsPrefix(p, rest);
    var t := Trim(p + rest);
    var y := t[|p|..];
    assert t == "v" + digits + ("." + y);
    TrimLeftVersionMark(digits, "." + y);
    assert VersionText(p + rest) == digits + "." + y;
    FirstFieldOfDigits(digits, y);
  }

  /** `getProjectRoot` of the command: normalise, then up 3 levels under `/vendor/`, else 2. */
  function CommandProjectRoot(bundlePath: string): string
  {
    var b := NormalizePath(bundlePath);
    if Contains(b, VendorMarker) then DirnameLevels(b, 3) else DirnameLevels(b, 2)
  }

  /** The command and the path resolver agree on the project root. */
  lemma CommandRootAgreesWithResolver(bundlePath: string)
    ensures CommandProjectRoot(bundlePath) == ProjectRoot(bundlePath)
  {
    var b := NormalizePath(bundlePath);
    NormalizeFixesPlainPaths(DirnameLevels(b, RootLevels(b)));
  }

  /** The choice between a project root and the bundle, whatever the root is. */
  function WorkingPathUnder(root: string, bundlePath: string, existing: set<string>): (w: string)
    ensures root + "/vite.config.js" in existing && root + "/package.json" in existing ==> w == root
    ensures !(root + "/vite.config.js" in existing && root + "/package.json" in existing) ==> w == bundlePath
  {
    if root + "/vite.config.js" in existing && root + "/package.json" in existing then root else bundlePath
  }

  /** npm runs in the project when it has both `vite.config.js` and `package.json`, else in the bundle. */
  function WorkingPath(bundlePath: string, existing: set<string>): (w: string)
    ensures w == bundlePath || w == CommandProjectRoot(bundlePath)
    ensures var root := CommandProjectRoot(bundlePath);
            root + "/vite.config.js" in existing && root + "/package.json" in existing ==> w == root
    ensures var root := CommandProjectRoot(bundlePath);
            !(root + "/vite.config.js" in existing && root + "/package.json" in existing) ==> w == bundlePath
  {
    WorkingPathUnder(CommandProjectRoot(bundlePath), bundlePath, existing)
  }

  /** What is printed after a successful build: the manifest path, a plain success line, or nothing. */
  datatype Report = ManifestReport(path: string) | PlainSuccess | NoReport

  /** The report after the build; only a one-off build (neither watch nor dev) reports. */
  function PostBuildReport(workingPath: string, o: Options, existing: set<string>): (r: Report)
    ensures r != NoReport <==> !o.watch && !o.dev
    ensures r.ManifestReport? ==> r.path == workingPath + "/public/build/manifest.json" && r.path in existing
  {
    if o.watch || o.dev then NoReport
    else
      var manifest := workingPath + "/public/build/manifest.json";
      if manifest in existing then ManifestReport(manifest) else PlainSuccess
  }

  /** A process the command starts, with its working directory. */
  datatype Invocation = Invocation(command: seq<string>, cwd: string)

  /** What the command needs from outside: the filesystem, the user's answer, npm, process results. */
  datatype Environment = Environment(existing: set<string>, dirs: set<string>, confirmInstall: bool,
                                     npm: Option<string>, installSucceeds: bool, buildSucceeds: bool)

  /** `node_modules` is missing from the working directory. */
  predicate NeedsInstall(bundlePath: string, env: Environment) {
    WorkingPath(bundlePath, env.existing) + "/node_modules" !in env.dirs
  }

  /** The build process: npm for the reconciled flags, in the working path. */
  function BuildInvocation(o: Options, bundlePath: string, npmPath: string, existing: set<string>): Invocation
  {
    var r := Reconcile(o).options;
    Invocation(NpmCommand(npmPath, r.watch, r.dev, r.prod), WorkingPath(bundlePath, existing))
  }

  datatype Execution = Execution(exitCode: int, invocations: seq<Invocation>, conflictWarning: bool, report: Report)

  /**
   * `execute`: install the npm dependencies if they are missing and the user agrees,
   * find npm, reconcile the flags, run the build, and report.
   */
  function Execute(o: Options, bundlePath: string, env: Environment): (e: Execution)
    ensures e.exitCode == Success || e.exitCode == Failure
    ensures e.exitCode == Success <==> (env.npm.Some? && env.buildSucceeds
                                        && (NeedsInstall(bundlePath, env) ==> env.confirmInstall && env.installSucceeds))
    ensures e.exitCode == Success ==>
              |e.invocations| > 0 && e.invocations[|e.invocations| - 1] == BuildInvocation(o, bundlePath, env.npm.value, env.existing)
    ensures e.report != NoReport ==> e.exitCode == Success && !o.watch && !Reconcile(o).options.dev
    ensures |e.invocations| <= 2
  {
    var working := WorkingPath(bundlePath, env.existing);
    var needsInstall := NeedsInstall(bundlePath, env);
    if needsInstall && !env.confirmInstall then Execution(Failure, [], false, NoReport)
    else if needsInstall && env.npm.None? then Execution(Failure, [], false, NoReport)
    else
      var installs := if needsInstall then [Invocation(InstallCommand(env.npm.value), working)] else [];
      if needsInstall && !env.installSucceeds then Execution(Failure, installs, false, NoReport)
      else if env.npm.None? then Execution(Failure, installs, false, NoReport)
      else
        var r := Reconcile(o);
        var build := BuildInvocation(o, bundlePath, env.npm.value, env.existing);
        if env.buildSucceeds then
          Execution(Success, installs + [build], r.conflictWarning, PostBuildReport(working, r.options, env.existing))
        else Execution(Failure, installs + [build], r.conflictWarning, NoReport)
  }

  /** `--prod --dev` builds for production: the plain build runs and the manifest is reported. */
  lemma ProdOverridesDev(bundlePath: string, env: Environment, watch: bool)
    requires env.npm.Some? && env.buildSucceeds && !watch
    requires !NeedsInstall(bundlePath, env)
    ensures var e := Execute(Options(watch, true, true), bundlePath, env);
            e.exitCode == Success && e.conflictWarning && e.report != NoReport
            && e.invocations == [Invocation(NpmCommand(env.npm.value, watch, false, false), WorkingPath(bundlePath, env.existing))]
  {
    NpmCommandShape(env.npm.value, watch, false, true);
  }
}
