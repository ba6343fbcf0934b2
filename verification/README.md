# ReactBundle core in Dafny

A Dafny model of the decision logic of a Symfony bundle that mounts React components
in Twig pages and drives the Vite/npm toolchain. Filesystem state, process results,
network answers, user answers and PHP built-ins that cannot be reproduced
(`json_encode`, `json_decode`, `filter_var`, `parse_url`, `uniqid`) are passed in as
parameters. The rest is modelled as pure functions over strings, sequences and maps.
The two loops are methods: the Composer install retry loop and the build-directory scan.

One module per component of the bundle:

| file | module | models |
|---|---|---|
| `wrappers.dfy` | `Wrappers` | `Option` and `Result` |
| `strings.dfy` | `Strings` | PHP string functions: `trim`, `ltrim`, `rtrim`, `strpos`, `explode(...)[0]`, `(int)`, decimal text |
| `paths.dfy` | `Paths` | `BundlePathResolver`; `dirname` on Unix; the project-root rule the other classes copy |
| `html_escape.dfy` | `HtmlEscape` | `htmlspecialchars` with `ENT_QUOTES`, in the two configurations the bundle uses |
| `manifest.dfy` | `Manifest` | the Vite manifest as a PHP array; reading and validating it; the ten-entry cache |
| `vite_extension.dfy` | `ViteExtension` | the Twig functions `vite_entry_script_tags` and `vite_entry_link_tags` |
| `react_renderer.dfy` | `ReactRenderer` | `ReactRenderer::render` and the component-name check |
| `assets_build_command.dfy` | `AssetsBuildCommand` | the `react:build` console command |
| `script_handler.dfy` | `ScriptHandler` | the Composer hooks `installAssets` and `generateViteConfig` |
| `react_extension.dfy` | `DiExtension` | the container extension `ReactExtension::load` |
| `build_artifact_validator.dfy` | `BuildArtifactValidator` | `BuildArtifactValidator` |
| `dev_check_command.dfy` | `DevCheckCommand` | the `react:dev:check` console command |

`DIRECTORY_SEPARATOR` is fixed to `/`. `dirname` follows PHP's Unix implementation:
it strips trailing slashes, then the last name, then the slashes before it.

## Model

| member | source | states |
|---|---|---|
| Manifest.Lookup | src/Twig/ViteExtension.php:78-81 | A key is absent exactly when it is not among `array_keys`; a found value is stored under that key in the manifest |
| Manifest.ResolveKey | src/Twig/ViteExtension.php:76-89 | The exact key wins when it is set. Otherwise only the alias `js/app.jsx` of `app` is tried. Resolution fails exactly when neither is set |
| Manifest.OnlyAppIsAliased | src/Twig/ViteExtension.php:80 | Any entry other than `app` resolves exactly when it is itself set, and to itself |
| Manifest.ReadJsonArray | src/Twig/ViteExtension.php:264-289 | Each failure happens in the source's order: missing file, unreadable file, JSON error with its message, non-array with its type. Success holds exactly for a readable file that decodes to an array, and yields that array |
| Manifest.Insert | src/Twig/ViteExtension.php:291-295 | Storing keeps the cache valid (at most 10 distinct paths). It evicts the oldest path only when the cache is full, and leaves every other stored manifest untouched |
| Manifest.Load | src/Twig/ViteExtension.php:255-299 | A cached path is answered from the cache without reading the file. A miss reads the file; a failure leaves the cache unchanged; a success caches the manifest |
| Manifest.LoadThenHit | src/Twig/ViteExtension.php:258-262 | After a successful load, loading the same path again returns the same manifest whatever the file now holds |
| Manifest.InsertAllKeepsNewest | src/Twig/ViteExtension.php:291-295 | After any run of misses the cache holds exactly the ten most recently stored paths, oldest first (first in, first out) |
| Paths.NormalizePath | src/Service/BundlePathResolver.php:59-62 | Normalising keeps the length, leaves no backslash, and changes only backslashes |
| Paths.NormalizeIdempotent | src/Service/BundlePathResolver.php:59-62 | Normalising twice equals normalising once |
| Paths.Dirname | src/Service/BundlePathResolver.php:43-47 | `dirname` of an absolute path is an absolute prefix of it |
| Paths.ProjectRoot | src/Service/BundlePathResolver.php:36-50 | The project root has no backslash; for an absolute bundle path it is an absolute prefix of the normalised path |
| Paths.ProjectRootOfVendorBundle | src/Service/BundlePathResolver.php:43-44 | A bundle at `root/vendor/<vendor>/<package>` has `root` as its project root (three levels up) |
| Paths.ProjectRootOfLocalBundle | src/Service/BundlePathResolver.php:45-47 | A bundle at `root/<dir>/<name>` with no `/vendor/` in it has `root` as its project root (two levels up) |
| Paths.PublicBuildPath | src/Service/BundlePathResolver.php:71-77 | The build path starts with `<project root>/public/` and ends with the normalised build directory |
| Paths.ManifestPath | src/Service/BundlePathResolver.php:88-105 | The `.vite/manifest.json` file wins when it exists, then `manifest.json`. The answer is `null` exactly when neither exists, and any answer is an existing candidate |
| Paths.ManifestCandidatesDiffer | src/Service/BundlePathResolver.php:93-99 | The two candidate manifest paths are always different |
| Paths.ChosenManifestPath | src/Twig/ViteExtension.php:56-60 | The extension settles on one of the two candidates, and on the `.vite` one whenever it exists |
| Paths.ChosenPathAgreesWithResolver | src/Twig/ViteExtension.php:56-61 | The extension's chosen path exists exactly when the resolver returns it; the resolver returns `null` exactly when it does not exist |
| HtmlEscape.ReferenceLength | src/Service/ReactRenderer.php:75 | A recognised reference starts with `&`, ends with `;`, and holds only letters, digits and `#` in between |
| HtmlEscape.NamedReferenceRecognised | src/Service/ReactRenderer.php:75 | `&name;` for a name in the entity table is kept whole, whatever follows it |
| HtmlEscape.Escape | src/Service/ReactRenderer.php:71-76 | The escaped text contains no `<`, `>`, `"` or `'` and is never shorter than the input |
| HtmlEscape.EscapeOfAllSpecials | src/Service/ReactRenderer.php:71-76 | `&<>"'` becomes `&amp;&lt;&gt;&quot;&apos;` under `ENT_QUOTES` and `ENT_HTML5` |
| HtmlEscape.EscapeIsClean | src/Service/ReactRenderer.php:75 | The output of the no-double-encoding escaper is text it leaves alone: every `&` in it starts a recognised reference |
| HtmlEscape.EscapeFixesClean | src/Service/ReactRenderer.php:75 | Without double encoding, text whose every `&` starts a reference and that holds no other special character is left unchanged |
| HtmlEscape.EscapeIdempotent | src/Service/ReactRenderer.php:71-76 | Escaping the props a second time changes nothing |
| HtmlEscape.UnescapeEscape | src/Service/ReactRenderer.php:71-76 | Decoding the five entities gives back the original text, with double encoding on, or when the input holds no reference |
| ViteExtension.AssetUrl | src/Twig/ViteExtension.php:92-96 | An asset URL is `/<buildDir>/` followed by the file |
| ViteExtension.CssTags | src/Twig/ViteExtension.php:98-107 | One stylesheet link per css item, in manifest order. There are none when the entry has no `css` |
| ViteExtension.EntryTags | src/Twig/ViteExtension.php:91-107 | The entry's module script comes first, followed by exactly its stylesheet links |
| ViteExtension.DevTags | src/Twig/ViteExtension.php:128-140 | Dev mode emits exactly two scripts. The first is `@vite/client` on the server without trailing slashes; the second is the entry, with `app` mapped to `js/app.jsx` |
| ViteExtension.ErrorComment | src/Twig/ViteExtension.php:116-124 | A load failure becomes the `Error loading Vite manifest:` comment, whose escaped message holds no markup character |
| ViteExtension.ScriptTags | src/Twig/ViteExtension.php:39-150 | With no manifest, dev mode gives the two dev-server scripts and production gives `Vite manifest not found: <path>`. The cache changes only on a miss for an existing manifest, and stays valid |
| ViteExtension.ScriptTagsFromManifest | src/Twig/ViteExtension.php:71-107 | With a loadable manifest that resolves the entry, the output is the entry's script followed by exactly one link per css item |
| ViteExtension.ScriptTagsOnLoadError | src/Twig/ViteExtension.php:116-124 | A manifest that fails to load never escapes as an exception. It yields the error comment, and the cache is unchanged |
| ViteExtension.ScriptTagsUnknownEntry | src/Twig/ViteExtension.php:78-88 | An entry that resolves to no key, itself or (for `app`) through the `js/app.jsx` alias, yields the `not found in manifest` comment listing the available keys |
| ViteExtension.ManifestWinsOverDevMode | src/Twig/ViteExtension.php:71-72 | When the manifest exists, dev mode and production render identically |
| ViteExtension.LinkTags | src/Twig/ViteExtension.php:155-211 | The result is empty in dev mode, without a manifest, when the manifest is not a JSON array and when the entry resolves to no key. It fails only on an unreadable manifest in production. For a resolved key it is the stylesheet links of that entry's `css` list |
| ViteExtension.LinkTagsAreScriptTail | src/Twig/ViteExtension.php:186-210 | On a first production load, the link tags are exactly the stylesheet part of the script tags |
| ViteExtension.ParseTagsHtml | src/Twig/ViteExtension.php:92-106 | Tags whose URLs hold no `"` are read back exactly from the emitted HTML |
| ReactRenderer.AsWrittenAcceptsTrailingNewline | src/Service/ReactRenderer.php:116 | The check as written accepts `"Abc\n"`, which the intended rule rejects |
| ReactRenderer.AsWrittenDiffersOnlyByNewline | src/Service/ReactRenderer.php:113-117 | The check as written accepts exactly the valid names, plus valid names followed by one line feed |
| ReactRenderer.ValidNameNeedsNoEscaping | src/Service/ReactRenderer.php:113-117 | A valid component name is unchanged by `htmlspecialchars` in any configuration |
| ReactRenderer.GeneratedId | src/Service/ReactRenderer.php:50-52 | A generated id starts with `react-component-` and ends with `-<uniqid>` |
| ReactRenderer.GeneratedIdsDiffer | src/Service/ReactRenderer.php:51 | Ids generated from different counter values differ, whatever `uniqid` returned |
| ReactRenderer.EscapedProps | src/Service/ReactRenderer.php:55-85 | The props attribute holds no markup character. An encoding failure gives `{}` and exactly one error record. Otherwise the attribute decodes back to the JSON when the JSON holds no reference |
| ReactRenderer.Render | src/Service/ReactRenderer.php:34-108 | Under the intended name rule (see Findings), an invalid name fails with its message and leaves the counter unchanged. A caller's id is kept and does not advance the counter; otherwise the counter advances by one. The props are escaped or fall back to `{}`. The info record carries the props count |
| ReactRenderer.Mount | src/Service/ReactRenderer.php:50-108 | A caller's id is kept and leaves the counter alone; otherwise the generated id uses the counter, which advances by one. The props hold no markup character and fall back to `{}` with one error record when encoding fails |
| ReactRenderer.RenderRejectsTrailingNewline | src/Service/ReactRenderer.php:41-48 | `Render` rejects `"Abc\n"`, which the check as written accepts |
| ReactRenderer.SuccessiveIdsDiffer | src/Service/ReactRenderer.php:50-52 | Two successive renders that generate their ids get different ids |
| ReactRenderer.EmptyPropsRenderAsEmptyList | src/Service/ReactRenderer.php:57 | Empty props reach the template as `[]` |
| AssetsBuildCommand.Reconcile | src/Command/ReactAssetsBuildCommand.php:104-108 | `--prod` with `--dev` clears `dev` and warns; nothing else changes |
| AssetsBuildCommand.ReconcileSettles | src/Command/ReactAssetsBuildCommand.php:104-108 | Reconciled flags are stable and never warn again |
| AssetsBuildCommand.NpmScriptName | src/Command/ReactAssetsBuildCommand.php:284-291 | `dev` is chosen exactly when dev is set. `build:watch` is chosen exactly when watch is set without dev. `build` is chosen otherwise |
| AssetsBuildCommand.NpmCommandShape | src/Command/ReactAssetsBuildCommand.php:249-292 | Without nvm the command is `[npm, run, <script>]`; with nvm it is `bash -c` ending in `run <script>`. `--prod` never changes the command |
| AssetsBuildCommand.InstallCommand | src/Command/ReactAssetsBuildCommand.php:297-311 | The install command is `[npm, install]` without nvm and a three-word `bash -c` command with it |
| AssetsBuildCommand.InstallAndBuildShareEnvironment | src/Command/ReactAssetsBuildCommand.php:249-311 | Under nvm the install and build scripts share the environment prefix and differ only in the npm action |
| AssetsBuildCommand.NodeMajorOfVersion | src/Command/ReactAssetsBuildCommand.php:338-347 | The major number of `v<major>.<rest>` is read back exactly. The warning is shown exactly when it is below 18 |
| AssetsBuildCommand.CommandRootAgreesWithResolver | src/Command/ReactAssetsBuildCommand.php:356-368 | The command's project root equals the resolver's |
| AssetsBuildCommand.WorkingPathUnder | src/Command/ReactAssetsBuildCommand.php:44-49 | For any project root: npm runs there exactly when it holds both `vite.config.js` and `package.json`, and in the bundle otherwise |
| AssetsBuildCommand.WorkingPath | src/Command/ReactAssetsBuildCommand.php:37-49 | npm runs in the project root exactly when it holds both `vite.config.js` and `package.json`, and in the bundle otherwise |
| AssetsBuildCommand.PostBuildReport | src/Command/ReactAssetsBuildCommand.php:134-144 | There is a report exactly when neither watch nor dev is set. A manifest report names an existing `public/build/manifest.json` |
| AssetsBuildCommand.Execute | src/Command/ReactAssetsBuildCommand.php:30-151 | The exit code is SUCCESS exactly when npm is found, the build succeeds, and missing dependencies were confirmed and installed. On success the last process is the build for the reconciled flags. At most two processes run |
| AssetsBuildCommand.ProdOverridesDev | src/Command/ReactAssetsBuildCommand.php:104-111 | `--prod --dev` warns, runs the plain build and reports |
| ScriptHandler.EscapeShellArg | src/Composer/ScriptHandler.php:195-197 | A quoted argument starts and ends with `'` |
| ScriptHandler.EscapeShellArgRoundTrip | src/Composer/ScriptHandler.php:188-198 | A POSIX shell reads `escapeshellarg($s)` back as exactly one word equal to `$s` |
| ScriptHandler.InstallCommand | src/Composer/ScriptHandler.php:181-204 | The install command is `[npm, install]` without nvm and `bash -c` with the quoted script under nvm |
| ScriptHandler.InstallScriptQuotesEachPath | src/Composer/ScriptHandler.php:188-198 | The node path, the nvm directory and the npm path each enter the script only as a quoted word that reads back as the original path |
| ScriptHandler.InstallerAsWrittenMissesBundle | src/Composer/ScriptHandler.php:18-19 | Three `..` from `src/Composer` lead to the directory above the bundle, not to the bundle |
| ScriptHandler.InstallerFindsBundle | src/Composer/ScriptHandler.php:18-19 | Two `..` from `src/Composer` lead to the bundle itself |
| ScriptHandler.InstallAssets | src/Composer/ScriptHandler.php:15-108 | There is no attempt without `package.json`, with `node_modules` present, or without npm. Otherwise at most 3 attempts run, stopping at the first success. Pauses follow failed non-final attempts only, and the `i`-th pause is `2 * 2^i` seconds |
| ScriptHandler.RetryInstall | src/Composer/ScriptHandler.php:64-107 | The loop ends either at the first successful attempt, after failures of all earlier ones, or after three failed attempts. Every attempt runs the same command, and the `i`-th pause is `2 * 2^i` seconds, taken only after a failed non-final attempt |
| ScriptHandler.BackoffIsBounded | src/Composer/ScriptHandler.php:64-87 | The only pauses are 2 s then 4 s, 6 s in all; the 8 s in the comment is never reached |
| ScriptHandler.GenerationRootAsWrittenStaysInBundle | src/Composer/ScriptHandler.php:215-224 | As written, a Composer-installed bundle computes its own `src/Composer` directory as the project root |
| ScriptHandler.GenerationRootOfVendorBundle | src/Composer/ScriptHandler.php:215-224 | The corrected rule gives the project root for a Composer-installed bundle |
| ScriptHandler.GenerateViteConfig | src/Composer/ScriptHandler.php:211-277 | `vite.config.js` is written exactly when it is absent and the template exists. `tsconfig.json` is written exactly when it is absent, its template exists, and TypeScript is detected or confirmed. `tsconfig.node.json` is written only after that write succeeds. Each text is its template |
| ScriptHandler.Writes | src/Composer/ScriptHandler.php:226-268 | Only the three configuration files in the root are ever written to, and `vite.config.js` receives its template |
| ScriptHandler.GenerateNeverOverwrites | src/Composer/ScriptHandler.php:228-247 | An existing `vite.config.js` or `tsconfig.json` is never written |
| ScriptHandler.GenerateReplacesTsConfigNode | src/Composer/ScriptHandler.php:264-268 | An existing `tsconfig.node.json` is replaced when `tsconfig.json` is generated |
| ScriptHandler.GeneratedConfigInProjectRoot | src/Composer/ScriptHandler.php:226-241 | With the corrected root, a Composer install writes the template to `<root>/vite.config.js` |
| DiExtension.ViteServerUrl | src/DependencyInjection/ReactExtension.php:71-73 | The URL is the environment value, the configured value, or the default |
| DiExtension.ViteServerUrlPrecedence | src/DependencyInjection/ReactExtension.php:71-73 | A non-empty `VITE_SERVER_URL` wins. An unset, `""` or `"0"` one falls back to the configuration, then to `http://localhost:3000` |
| DiExtension.OnlyHttpSchemesPass | src/DependencyInjection/ReactExtension.php:95-106 | A scheme other than `http` or `https` is rejected whatever `filter_var` says |
| DiExtension.LocalhostWarnings | src/DependencyInjection/ReactExtension.php:82-87 | The localhost warning fires exactly when `APP_ENV` is `prod` and the URL contains `localhost` |
| DiExtension.DirectoryWarnings | src/DependencyInjection/ReactExtension.php:42-61 | Each directory warning fires exactly when its directory is missing, with the build directory before the assets directory |
| DiExtension.Load | src/DependencyInjection/ReactExtension.php:14-37 | `load` fails exactly on an invalid URL, with its message and before any parameter is set. Otherwise it sets the three `react.*` parameters with defaults `build` and `assets`, and keeps every other parameter |
| DiExtension.LoadWarningOrder | src/DependencyInjection/ReactExtension.php:26-32 | The localhost warning, if any, comes first |
| DiExtension.DefaultsWhenUnconfigured | src/DependencyInjection/ReactExtension.php:28-29 | An empty configuration yields `build`, `assets` and `http://localhost:3000` |
| BuildArtifactValidator.Extension | src/Service/BuildArtifactValidator.php:49-51 | The extension is the dot-free tail after the last dot, or empty |
| BuildArtifactValidator.ExtensionAfterLastDot | src/Service/BuildArtifactValidator.php:49-51 | `base.ext` has extension `ext` whenever `ext` has no dot |
| BuildArtifactValidator.CountsWithinFiles | src/Service/BuildArtifactValidator.php:43-56 | js count plus css count never exceeds the number of files, which never exceeds the number of entries |
| BuildArtifactValidator.CountBundles | src/Service/BuildArtifactValidator.php:43-56 | The loop counts exactly the `.js` and `.css` files, skipping `.`, `..` and directories. It counts nothing when `opendir` fails |
| BuildArtifactValidator.ValidateBuildArtifacts | src/Service/BuildArtifactValidator.php:29-90 | A missing directory throws first, then a missing manifest throws with the js and css counts of the listing logged. A result always has `manifest_exists`, the counts and `<build>/manifest.json`. Zero js files only add a warning |
| BuildArtifactValidator.ValidateManifestFormat | src/Service/BuildArtifactValidator.php:95-124 | Each failure comes with its message: a missing file, an unreadable file, invalid JSON, a non-array. Otherwise the decoded array is returned unchanged |
| BuildArtifactValidator.FormatCheckAgreesWithExtension | src/Service/BuildArtifactValidator.php:95-116 | The validator accepts exactly the manifests the Vite extension loads into an empty cache, with the same array |
| DevCheckCommand.ProbeUrl | src/Command/ReactDevCheckCommand.php:128 | The probed URL ends with `/@vite/client` |
| DevCheckCommand.ProbeUrlIgnoresTrailingSlash | src/Command/ReactDevCheckCommand.php:128 | A trailing slash on the server does not change the probed URL |
| DevCheckCommand.StatusFrom | src/Command/ReactDevCheckCommand.php:149 | The status is captured at the leftmost match position; none is captured only when no position matches |
| DevCheckCommand.StatusOfStatusLine | src/Command/ReactDevCheckCommand.php:149-150 | `HTTP/1.x <code> <reason>` yields exactly `<code>` |
| DevCheckCommand.StatusDecides | src/Command/ReactDevCheckCommand.php:147-152 | With an `HTTP/1.x` status line, the server counts as up exactly for a 2xx status, whatever the body |
| DevCheckCommand.BodyDecidesWithoutStatus | src/Command/ReactDevCheckCommand.php:155-156 | Without a matching status line, the server counts as up exactly when the body is neither `""` nor `"0"` |
| DevCheckCommand.Http2StatusIsIgnored | src/Command/ReactDevCheckCommand.php:149 | `HTTP/2 404` does not match the pattern, so a non-empty body counts as up |
| DevCheckCommand.Execute | src/Command/ReactDevCheckCommand.php:35-118 | Outside dev mode it succeeds without probing. An invalid URL fails without probing. Otherwise it probes `ProbeUrl` and succeeds exactly when the probe says the server is up, logging pass or fail |
| DevCheckCommand.ExitCodeDecision | src/Command/ReactDevCheckCommand.php:40-117 | FAILURE exactly in dev mode with an invalid URL or an unreachable server |
| Strings.PhpIntCastOfDecimal | src/Command/ReactAssetsBuildCommand.php:340 | `(int)` of a decimal number followed by a non-digit is that number |
| Strings.FirstField | src/Command/ReactAssetsBuildCommand.php:340 | `explode('.', $s)[0]` is the longest dot-free prefix |

## Left out

- Processes and their environment. This covers `findNpm` (`which`, `whereis`, `glob`), `Process::mustRun`, `setEnv`, timeouts and streamed output. Their results are parameters: `npm`, `succeeds`, `installSucceeds` and `buildSucceeds`.
- `sleep`. The pauses are returned as a sequence, not waited.
- File and network I/O. `file_exists`, `is_dir`, `file_get_contents`, `file_put_contents`, `opendir`/`readdir` and the HTTP probe are inputs: sets of paths, maps of contents, a listing, a `Probe` value.
- `json_encode`, `json_decode`, `filter_var`, `parse_url` and `uniqid`. These are function parameters.
- The manifest cache key. It is the path itself rather than `md5($path)`; md5 collisions are not modelled.
- The `getBundlePath` reflection. The bundle directory is a parameter.
- The Twig template render. The mount point is represented by the three variables it receives.
- Log calls are reduced to records that carry the decisions. Timing, memory and debug records are not modelled, nor are console messages.
- The HTML5 named-entity table. It is a parameter (`entityNames`).
- Manifest entries that are not objects or `null`, and `file`/`css` values that are not strings.
- Configuration values that are not strings.
- The `Configuration` tree builder, `ReactBundle`, the Twig `ReactExtension` (pure delegation), the JavaScript sources and the Vite configuration files.
- `checkNodeVersion` running `node --version`. Only the parse of its output and the warning decision are modelled.
- `E_USER_WARNING` handlers that throw. Warnings are returned in order and never abort `load`.
- Strings.PhpIntCast: does not model saturation at `PHP_INT_MAX` nor exponent notation such as `(int) "1e3"`, because version fields and HTTP status codes are short digit runs.
- ScriptHandler.EscapeShellArg: does not model the error on a NUL byte nor multibyte locale handling.
- ScriptHandler.InstallAssets: takes the bundle directory as a parameter. It states which directory the code as written reaches through `InstallerAsWrittenMissesBundle`.
- ScriptHandler.GenerateViteConfig: uses the corrected project root. The written form is stated by `GenerationRootAsWrittenStaysInBundle`. It does not model `file_put_contents` failing for `vite.config.js`, nor `package.json` parsing for the TypeScript check (an input).
- ViteExtension.LinkTags: a JSON error or scalar yields no tags, as `isset` on a non-array does.
- ReactRenderer.Render: checks the intended rule; the source also accepts a valid name followed by one line feed (AsWrittenAcceptsTrailingNewline, RenderRejectsTrailingNewline).
- ScriptHandler.Writes: records the files the hook attempts to write; a failed `file_put_contents` is not told apart from a successful one, except that a failed `tsconfig.json` stops `tsconfig.node.json`.
- DevCheckCommand.IsAccessible: an unset `$http_response_header` is the `None` status line, and only the first header line is kept.

## Findings

| source | as written | input that shows it | evidently intended | confidence | as-written member | corrected member |
|---|---|---|---|---|---|---|
| src/Service/ReactRenderer.php:116 | `^[a-zA-Z0-9_-]+$` without the `D` modifier: `$` also matches before a final line feed | component name `"Abc\n"` is accepted | only names made of letters, digits, `_` and `-` | high (not executed) | ReactRenderer.AsWrittenAcceptsTrailingNewline | ReactRenderer.ValidNameNeedsNoEscaping |
| src/Composer/ScriptHandler.php:215-224 | `dirname(__DIR__ . '/../../..', 3)` is textual, so it strips the three `..` just appended | hook in `/app/vendor/acme/react/src/Composer` gives root `/app/vendor/acme/react/src/Composer` | the project root `/app` | high (not executed) | ScriptHandler.GenerationRootAsWrittenStaysInBundle | ScriptHandler.GenerationRootOfVendorBundle |
| src/Composer/ScriptHandler.php:18-19 | `__DIR__ . '/../../..'` goes three levels up from `src/Composer` | bundle `/app/vendor/acme/react` is looked for in `/app/vendor/acme` | the bundle directory (two levels up) | medium (not executed) | ScriptHandler.InstallerAsWrittenMissesBundle | ScriptHandler.InstallerFindsBundle |
