/**
 * `ReactExtension::load`, the bundle's container extension: it picks the Vite server
 * URL (environment first, then configuration, then the default), rejects any URL that
 * is not http(s), warns about localhost in production and about missing directories,
 * and sets the three `react.*` parameters. `getenv`, `getcwd`, `is_dir`, `filter_var`
 * and `parse_url` are inputs.
 */
module DiExtension {
  import opened Wrappers
  import opened Strings

  const DefaultBuildDir: string := "build"
  const DefaultAssetsDir: string := "assets"
  const DefaultViteServer: string := "http://localhost:3000"

  /** The processed `react:` configuration; `None` for a key that is absent or null. */
  datatype BundleConfig = BundleConfig(buildDir: Option<string>, assetsDir: Option<string>, viteServer: Option<string>)

  /** The process environment the extension reads. */
  datatype Environment = Environment(viteServerUrl: Option<string>, appEnv: Option<string>,
                                     cwd: string, dirs: set<string>)

  /** `filter_var($url, FILTER_VALIDATE_URL) !== false` and `parse_url($url, PHP_URL_SCHEME)`. */
  datatype UrlFunctions = UrlFunctions(isUrl: string -> bool, scheme: string -> Option<string>)

  /** The `E_USER_WARNING`s `load` triggers. */
  datatype Warning = LocalhostInProduction(url: string) | BuildDirNotFound(path: string) | AssetsDirNotFound(path: string)

  /** `(!empty($env) ? $env : null) ?? $config['vite_server'] ?? 'http://localhost:3000'`. */
  function ViteServerUrl(config: BundleConfig, envUrl: Option<string>): (url: string)
    ensures url == DefaultViteServer || Some(url) == config.viteServer || Some(url) == envUrl
  {
    if envUrl.Some? && !PhpEmpty(envUrl.value) then envUrl.value
    else if config.viteServer.Some? then config.viteServer.value
    else DefaultViteServer
  }

  /**
   * The precedence: a set, non-empty `VITE_SERVER_URL` always wins; an unset or empty
   * one (`""` or `"0"`) leaves the configured URL, and only then the default.
   */
  lemma ViteServerUrlPrecedence(config: BundleConfig, envUrl: Option<string>)
    ensures envUrl.Some? && envUrl.value != "" && envUrl.value != "0" ==> ViteServerUrl(config, envUrl) == envUrl.value
    ensures (envUrl == None || envUrl == Some("") || envUrl == Some("0")) && config.viteServer.Some?
            ==> ViteServerUrl(config, envUrl) == config.viteServer.value
    ensures (envUrl == None || envUrl == Some("") || envUrl == Some("0")) && config.viteServer.None?
            ==> ViteServerUrl(config, envUrl) == DefaultViteServer
  {
  }

  /** `isValidViteServerUrl`: a URL by `filter_var`, and its scheme exactly `http` or `https`. */
  predicate IsValidViteServerUrl(url: string, fns: UrlFunctions) {
    fns.isUrl(url) && fns.scheme(url) in {Some("http"), Some("https")}
  }

  /** Any other scheme, or none, is rejected whatever `filter_var` says. */
  lemma OnlyHttpSchemesPass(url: string, fns: UrlFunctions)
    requires fns.scheme(url) != Some("http") && fns.scheme(url) != Some("https")
    ensures !IsValidViteServerUrl(url, fns)
  {
  }

  function InvalidUrlMessage(url: string): string
  {
    "VITE_SERVER_URL \"" + url + "\" is invalid. Must be a valid http(s) URL."
  }

  /** The localhost warning: only when `APP_ENV` is exactly `prod`. */
  function LocalhostWarnings(url: string, appEnv: Option<string>): (w: seq<Warning>)
    ensures w == [] || w == [LocalhostInProduction(url)]
    ensures w != [] <==> appEnv == Some("prod") && Contains(url, "localhost")
  {
    if appEnv == Some("prod") && Contains(url, "localhost") then [LocalhostInProduction(url)] else []
  }

  /** `validateDirectories`: the build directory under `public/`, then the assets directory. */
  function DirectoryWarnings(buildDir: string, assetsDir: string, env: Environment): (w: seq<Warning>)
    ensures BuildDirNotFound(env.cwd + "/public/" + buildDir) in w <==> env.cwd + "/public/" + buildDir !in env.dirs
    ensures AssetsDirNotFound(env.cwd + "/" + assetsDir) in w <==> env.cwd + "/" + assetsDir !in env.dirs
    ensures forall x :: x in w ==> x == BuildDirNotFound(env.cwd + "/public/" + buildDir) || x == AssetsDirNotFound(env.cwd + "/" + assetsDir)
    ensures |w| == 2 ==> w[0].BuildDirNotFound? && w[1].AssetsDirNotFound?
  {
    var build := env.cwd + "/public/" + buildDir;
    var assets := env.cwd + "/" + assetsDir;
    (if build !in env.dirs then [BuildDirNotFound(build)] else [])
      + (if assets !in env.dirs then [AssetsDirNotFound(assets)] else [])
  }

  const BuildDirParameter: string := "react.build_dir"
  const AssetsDirParameter: string := "react.assets_dir"
  const ViteServerParameter: string := "react.vite_server"

  /** The container's parameters after a successful `load`, and the warnings triggered on the way. */
  datatype Loaded = Loaded(parameters: map<string, string>, warnings: seq<Warning>)

  /**
   * `load`: resolve and validate the URL (an invalid one throws before anything is
   * set), default the directories, warn, then set the three parameters.
   */
  function Load(config: BundleConfig, env: Environment, fns: UrlFunctions, parameters: map<string, string>): (r: Result<Loaded, string>)
    ensures var url := ViteServerUrl(config, env.viteServerUrl);
            r.Failure? <==> !IsValidViteServerUrl(url, fns)
    ensures r.Failure? ==> r.error == InvalidUrlMessage(ViteServerUrl(config, env.viteServerUrl))
    ensures r.Success? ==>
              var p := r.value.parameters;
              BuildDirParameter in p && AssetsDirParameter in p && ViteServerParameter in p
              && IsValidViteServerUrl(p[ViteServerParameter], fns)
              && p[ViteServerParameter] == ViteServerUrl(config, env.viteServerUrl)
              && p[BuildDirParameter] == config.buildDir.GetOr(DefaultBuildDir)
              && p[AssetsDirParameter] == config.assetsDir.GetOr(DefaultAssetsDir)
              && (forall k :: k in p && k !in {BuildDirParameter, AssetsDirParameter, ViteServerParameter}
                    ==> k in parameters && p[k] == parameters[k])
              && (forall k :: k in parameters ==> k in p)
  {
    var url := ViteServerUrl(config, env.viteServerUrl);
    if !IsValidViteServerUrl(url, fns) then Failure(InvalidUrlMessage(url))
    else
      var buildDir := config.buildDir.GetOr(DefaultBuildDir);
      var assetsDir := config.assetsDir.GetOr(DefaultAssetsDir);
      var warnings := LocalhostWarnings(url, env.appEnv) + DirectoryWarnings(buildDir, assetsDir, env);
      Success(Loaded(parameters[BuildDirParameter := buildDir][AssetsDirParameter := assetsDir][ViteServerParameter := url],
                     warnings))
  }

  /** The localhost warning, if any, comes before the directory warnings. */
  lemma LoadWarningOrder(config: BundleConfig, env: Environment, fns: UrlFunctions, parameters: map<string, string>)
    requires Load(config, env, fns, parameters).Success?
    ensures var w := Load(config, env, fns, parameters).value.warnings;
            var url := ViteServerUrl(config, env.viteServerUrl);
            ((|w| > 0 && w[0] == LocalhostInProduction(url)) <==> (env.appEnv == Some("prod") && Contains(url, "localhost")))
            && (forall i :: 1 <= i < |w| ==> !w[i].LocalhostInProduction?)
  {
  }

  /** With an empty configuration and no environment, the defaults are what gets set. */
  lemma DefaultsWhenUnconfigured(env: Environment, fns: UrlFunctions)
    requires env.viteServerUrl.None?
    requires IsValidViteServerUrl(DefaultViteServer, fns)
    ensures var r := Load(BundleConfig(None, None, None), env, fns, map[]);
            r.Success?
            && r.value.parameters == map[BuildDirParameter := "build", AssetsDirParameter := "assets",
                                         ViteServerParameter := "http://localhost:3000"]
  {
  }
}
