/**
 * The Twig functions `vite_entry_script_tags` and `vite_entry_link_tags`: which tags an
 * entry produces from the Vite manifest, from the dev server, or which HTML comment
 * stands in for them. The filesystem is the `files` map; the bundle directory found by
 * reflection is the `bundlePath` parameter; `json_decode` is the `decode` parameter.
 */
module ViteExtension {
  import opened Wrappers
  import opened Strings
  import opened Paths
  import opened Manifest
  import HtmlEscape

  /** The extension's constructor arguments. */
  datatype Config = Config(isDev: bool, viteServer: string, buildDir: string)

  const DefaultConfig: Config := Config(false, "http://localhost:3000", "build")

  /** One emitted tag: a module script or a stylesheet link, by URL. */
  datatype Tag = ModuleScript(src: string) | Stylesheet(href: string)

  /** What `renderViteScriptTags` returns: tags, or an HTML comment explaining their absence. */
  datatype Output = Tags(tags: seq<Tag>) | Comment(text: string)

  const ScriptOpen: string := "<script type=\"module\" src=\""
  const ScriptClose: string := "\"></script>"
  const LinkOpen: string := "<link rel=\"stylesheet\" href=\""
  const LinkClose: string := "\">"

  function TagHtml(t: Tag): string
  {
    match t
    case ModuleScript(src) => ScriptOpen + src + ScriptClose
    case Stylesheet(href) => LinkOpen + href + LinkClose
  }

  function TagsHtml(ts: seq<Tag>): string
    decreases |ts|
  {
    if ts == [] then "" else TagHtml(ts[0]) + TagsHtml(ts[1..])
  }

  function Html(o: Output): string
  {
    match o
    case Tags(ts) => TagsHtml(ts)
    case Comment(text) => "<!-- " + text + " -->"
  }

  /** A built asset's public URL: `/<buildDir>/<file>`, with the build dir as configured. */
  function AssetUrl(buildDir: string, file: string): (url: string)
    ensures StartsWith(url, "/" + buildDir + "/") && EndsWith(url, file)
  {
    "/" + buildDir + "/" + file
  }

  /** One stylesheet link per css item, in manifest order; none when the entry has no `css`. */
  function CssTags(buildDir: string, css: Option<seq<string>>): (ts: seq<Tag>)
    ensures css.None? ==> ts == []
    ensures css.Some? ==> |ts| == |css.value|
    ensures css.Some? ==> forall i :: 0 <= i < |ts| ==> ts[i] == Stylesheet(AssetUrl(buildDir, css.value[i]))
  {
    match css
    case None => []
    case Some(items) => seq(|items|, i requires 0 <= i < |items| => Stylesheet(AssetUrl(buildDir, items[i])))
  }

  /** The production tags of a manifest entry: its script, then its stylesheets. */
  function EntryTags(buildDir: string, e: Entry): (ts: seq<Tag>)
    ensures |ts| >= 1 && ts[0].ModuleScript? && ts[1..] == CssTags(buildDir, e.css)
  {
    [ModuleScript(AssetUrl(buildDir, e.file.GetOr("")))] + CssTags(buildDir, e.css)
  }

  /** The dev-server tags: the Vite client first, then the entry (with `app` mapped to its source). */
  function DevTags(viteServer: string, entry: string): (ts: seq<Tag>)
    ensures |ts| == 2
    ensures ts[0] == ModuleScript(TrimRight(viteServer, '/') + "/@vite/client")
    ensures ts[1] == ModuleScript(TrimRight(viteServer, '/') + "/" + AliasOf(entry))
  {
    var base := TrimRight(viteServer, '/');
    [ModuleScript(base + "/@vite/client"), ModuleScript(base + "/" + AliasOf(entry))]
  }

  /** The manifest path the extension settles on, given which files exist. */
  function ManifestPathFor(cfg: Config, bundlePath: string, files: Files): string
  {
    ChosenManifestPath(bundlePath, cfg.buildDir, files.Keys)
  }

  /** The message of the exception `loadAndValidateManifest` throws. */
  function LoadErrorMessage(e: ReadError, path: string): string
  {
    match e
    case NotFound => "Vite manifest not found at: " + path
    case CannotRead => "Cannot read Vite manifest at: " + path
    case BadJson(msg) => "Invalid JSON in Vite manifest: " + msg
    case NotAnArray(t) => "Vite manifest must be a JSON object, got: " + t
  }

  const ErrorPrefix: string := "Error loading Vite manifest: "

  /** The comment that replaces a manifest-load exception; the message goes through `htmlspecialchars`. */
  function ErrorComment(e: ReadError, path: string): (o: Output)
    ensures o.Comment? && StartsWith(o.text, ErrorPrefix)
    ensures HtmlEscape.MarkupFree(o.text[|ErrorPrefix|..])
  {
    var escaped := HtmlEscape.Escape(LoadErrorMessage(e, path), HtmlEscape.DefaultFlags);
    assert (ErrorPrefix + escaped)[|ErrorPrefix|..] == escaped;
    Comment(ErrorPrefix + escaped)
  }

  /** The comment for an entry neither the manifest nor the alias knows. */
  function EntryNotFound(entry: string, m: Manifest): Output
  {
    Comment("Entry \"" + entry + "\" not found in manifest. Available keys: " + Join(Keys(m), ", "))
  }

  /**
   * `renderViteScriptTags($entry)`: an existing manifest always wins, even in dev mode;
   * without one, dev mode points at the dev server and production explains the absence.
   * Returns the output and the cache after the call.
   */
  function ScriptTags(cfg: Config, entry: string, bundlePath: string, files: Files, decode: string -> Decoded, cache: Cache): (res: (Output, Cache))
    requires cache.Valid()
    ensures res.1.Valid()
    ensures res.1 == cache || (ManifestPathFor(cfg, bundlePath, files) in files && ManifestPathFor(cfg, bundlePath, files) !in cache.store)
    ensures ManifestPathFor(cfg, bundlePath, files) !in files && cfg.isDev ==> res.0 == Tags(DevTags(cfg.viteServer, entry))
    ensures ManifestPathFor(cfg, bundlePath, files) !in files && !cfg.isDev
            ==> res.0 == Comment("Vite manifest not found: " + ManifestPathFor(cfg, bundlePath, files))
  {
    var path := ManifestPathFor(cfg, bundlePath, files);
    if path in files then
      var (loaded, cache') := Load(cache, files, path, decode);
      match loaded
      case Failure(e) => (ErrorComment(e, path), cache')
      case Success(m) =>
        match ResolveKey(m, entry)
        case None => (EntryNotFound(entry, m), cache')
        case Some(key) => (Tags(EntryTags(cfg.buildDir, EntryAt(m, key).value)), cache')
    else if cfg.isDev then (Tags(DevTags(cfg.viteServer, entry)), cache)
    else (Comment("Vite manifest not found: " + path), cache)
  }

  /**
   * With a loadable manifest that knows the entry (directly or as `app`), the output is
   * that entry's script followed by exactly one link per css item, in manifest order.
   */
  lemma ScriptTagsFromManifest(cfg: Config, entry: string, bundlePath: string, files: Files, decode: string -> Decoded, cache: Cache)
    requires cache.Valid()
    requires ManifestPathFor(cfg, bundlePath, files) in files
    requires Load(cache, files, ManifestPathFor(cfg, bundlePath, files), decode).0.Success?
    requires ResolveKey(Load(cache, files, ManifestPathFor(cfg, bundlePath, files), decode).0.value, entry).Some?
    ensures var m := Load(cache, files, ManifestPathFor(cfg, bundlePath, files), decode).0.value;
            var e := EntryAt(m, ResolveKey(m, entry).value).value;
            var o := ScriptTags(cfg, entry, bundlePath, files, decode, cache).0;
            o.Tags? && |o.tags| == 1 + |CssTags(cfg.buildDir, e.css)|
            && o.tags[0] == ModuleScript(AssetUrl(cfg.buildDir, e.file.GetOr("")))
            && (forall i :: 1 <= i < |o.tags| ==> o.tags[i] == Stylesheet(AssetUrl(cfg.buildDir, e.css.value[i - 1])))
  {
  }

  /** When the manifest cannot be loaded, the exception becomes a comment whose message cannot close it early. */
  lemma ScriptTagsOnLoadError(cfg: Config, entry: string, bundlePath: string, files: Files, decode: string -> Decoded, cache: Cache)
    requires cache.Valid()
    requires ManifestPathFor(cfg, bundlePath, files) in files
    requires Load(cache, files, ManifestPathFor(cfg, bundlePath, files), decode).0.Failure?
    ensures var o := ScriptTags(cfg, entry, bundlePath, files, decode, cache);
            o.0.Comment? && StartsWith(o.0.text, ErrorPrefix) && HtmlEscape.MarkupFree(o.0.text[|ErrorPrefix|..])
            && o.1 == cache
  {
  }

  /** An entry the manifest does not know yields the not-found comment and no tags. */
  lemma ScriptTagsUnknownEntry(cfg: Config, entry: string, bundlePath: string, files: Files, decode: string -> Decoded, cache: Cache)
    requires cache.Valid()
    requires ManifestPathFor(cfg, bundlePath, files) in files
    requires Load(cache, files, ManifestPathFor(cfg, bundlePath, files), decode).0.Success?
    requires ResolveKey(Load(cache, files, ManifestPathFor(cfg, bundlePath, files), decode).0.value, entry).None?
    ensures var m := Load(cache, files, ManifestPathFor(cfg, bundlePath, files), decode).0.value;
            ScriptTags(cfg, entry, bundlePath, files, decode, cache).0 == EntryNotFound(entry, m)
  {
  }

  /** Dev mode matters only when there is no manifest: with one, both modes render the same. */
  lemma ManifestWinsOverDevMode(cfg: Config, entry: string, bundlePath: string, files: Files, decode: string -> Decoded, cache: Cache)
    requires cache.Valid()
    requires ManifestPathFor(cfg, bundlePath, files) in files
    ensures ScriptTags(cfg.(isDev := true), entry, bundlePath, files, decode, cache)
         == ScriptTags(cfg.(isDev := false), entry, bundlePath, files, decode, cache)
  {
  }

  /** The exception `renderViteLinkTags` lets escape: `json_decode(false)` under strict types. */
  datatype LinkError = JsonDecodeTypeError

  /**
   * `renderViteLinkTags($entry)`: the stylesheet links of the entry, read from the
   * manifest file directly (without the cache); empty in dev mode and whenever the
   * manifest, the entry or its css list is missing.
   */
  function LinkTags(cfg: Config, entry: string, bundlePath: string, files: Files, decode: string -> Decoded): (r: Result<seq<Tag>, LinkError>)
    ensures cfg.isDev ==> r == Success([])
    ensures ManifestPathFor(cfg, bundlePath, files) !in files ==> r == Success([])
    ensures r.Failure? <==> !cfg.isDev && ManifestPathFor(cfg, bundlePath, files) in files
                             && files[ManifestPathFor(cfg, bundlePath, files)] == Unreadable
    ensures var path := ManifestPathFor(cfg, bundlePath, files);
            !cfg.isDev && path in files && files[path].Readable? && !decode(files[path].content).ArrayValue?
            ==> r == Success([])
    ensures var path := ManifestPathFor(cfg, bundlePath, files);
            !cfg.isDev && path in files && files[path].Readable? && decode(files[path].content).ArrayValue?
            ==> var m := decode(files[path].content).manifest;
                (ResolveKey(m, entry).None? ==> r == Success([]))
                && (ResolveKey(m, entry).Some? ==> r == Success(CssTags(cfg.buildDir, EntryAt(m, ResolveKey(m, entry).value).value.css)))
    ensures r.Success? ==> forall i :: 0 <= i < |r.value| ==> r.value[i].Stylesheet?
  {
    if cfg.isDev then Success([])
    else
      var path := ManifestPathFor(cfg, bundlePath, files);
      if path !in files then Success([])
      else match files[path]
        case Unreadable => Failure(JsonDecodeTypeError)
        case Readable(content) =>
          match decode(content)
          case ArrayValue(m) =>
            (match ResolveKey(m, entry)
             case None => Success([])
             case Some(key) => Success(CssTags(cfg.buildDir, EntryAt(m, key).value.css)))
          case _ => Success([])
  }

  /**
   * On a first load in production, the link tags are exactly the stylesheet tail of the
   * script tags: the two functions agree on the entry and its css.
   */
  lemma LinkTagsAreScriptTail(cfg: Config, entry: string, bundlePath: string, files: Files, decode: string -> Decoded, cache: Cache)
    requires cache.Valid() && !cfg.isDev
    requires ManifestPathFor(cfg, bundlePath, files) !in cache.store
    requires ScriptTags(cfg, entry, bundlePath, files, decode, cache).0.Tags?
    ensures LinkTags(cfg, entry, bundlePath, files, decode)
         == Success(ScriptTags(cfg, entry, bundlePath, files, decode, cache).0.tags[1..])
  {
  }

  predicate IsQuote(c: char) {
    c == '"'
  }

  predicate IsNotQuote(c: char) {
    c != '"'
  }

  predicate QuoteFree(s: string) {
    forall i :: 0 <= i < |s| ==> IsNotQuote(s[i])
  }

  function TagUrl(t: Tag): string
  {
    match t
    case ModuleScript(src) => src
    case Stylesheet(href) => href
  }

  /** Reads tags back from their HTML: the partner of `TagsHtml`. */
  function ParseTags(s: string): Option<seq<Tag>>
    decreases |s|
  {
    if s == [] then Some([])
    else if StartsWith(s, ScriptOpen) then
      var t := s[|ScriptOpen|..];
      var n := Run(t, IsNotQuote);
      var u := t[n..];
      if StartsWith(u, ScriptClose) then
        var rest :- ParseTags(u[|ScriptClose|..]);
        Some([ModuleScript(t[..n])] + rest)
      else None
    else if StartsWith(s, LinkOpen) then
      var t := s[|LinkOpen|..];
      var n := Run(t, IsNotQuote);
      var u := t[n..];
      if StartsWith(u, LinkClose) then
        var rest :- ParseTags(u[|LinkClose|..]);
        Some([Stylesheet(t[..n])] + rest)
      else None
    else None
  }

  /** The URL between an opening text and a closing text that starts with a quote is read back exactly. */
  lemma UrlBetween(open: string, url: string, close: string, rest: string)
    requires QuoteFree(url) && |close| > 0 && close[0] == '"'
    ensures var t := (open + url + close + rest)[|open|..];
            Run(t, IsNotQuote) == |url|
            && t[..|url|] == url
            && t[|url|..][..|close|] == close
            && t[|url|..][|close|..] == rest
  {
    var t := (open + url + close + rest)[|open|..];
    assert t == url + close + rest;
    assert t[|url|] == '"';
    RunIs(t, IsNotQuote, |url|);
    assert t[|url|..] == close + rest;
  }

  /** A script tag is read back from its HTML, whatever follows it. */
  lemma ParseScriptHtml(src: string, rest: string)
    requires QuoteFree(src)
    ensures ParseTags(TagHtml(ModuleScript(src)) + rest) == (var ts :- ParseTags(rest); Some([ModuleScript(src)] + ts))
  {
    var s := TagHtml(ModuleScript(src)) + rest;
    assert s == ScriptOpen + src + ScriptClose + rest;
    assert s[..|ScriptOpen|] == ScriptOpen;
    UrlBetween(ScriptOpen, src, ScriptClose, rest);
  }

  /** A stylesheet link is read back from its HTML, whatever follows it. */
  lemma ParseLinkHtml(href: string, rest: string)
    requires QuoteFree(href)
    ensures ParseTags(TagHtml(Stylesheet(href)) + rest) == (var ts :- ParseTags(rest); Some([Stylesheet(href)] + ts))
  {
    var s := TagHtml(Stylesheet(href)) + rest;
    assert s == LinkOpen + href + LinkClose + rest;
    assert s[1] == 'l';
    assert !StartsWith(s, ScriptOpen);
    assert s[..|LinkOpen|] == LinkOpen;
    UrlBetween(LinkOpen, href, LinkClose, rest);
  }

  /** One tag is read back from its HTML, whatever follows it. */
  lemma ParseTagHtml(tag: Tag, rest: string)
    requires QuoteFree(TagUrl(tag))
    ensures ParseTags(TagHtml(tag) + rest) == (var ts :- ParseTags(rest); Some([tag] + ts))
  {
    match tag
    case ModuleScript(src) => ParseScriptHtml(src, rest);
    case Stylesheet(href) => ParseLinkHtml(href, rest);
  }

  /** Tags whose URLs hold no double quote are read back exactly from the emitted HTML. */
  lemma {:induction false} ParseTagsHtml(ts: seq<Tag>)
    requires forall i :: 0 <= i < |ts| ==> QuoteFree(TagUrl(ts[i]))
    ensures ParseTags(TagsHtml(ts)) == Some(ts)
    decreases |ts|
  {
    if ts != [] {
      ParseTagsHtml(ts[1..]);
      ParseTagHtml(ts[0], TagsHtml(ts[1..]));
      assert [ts[0]] + ts[1..] == ts;
    }
  }
}
