/**
 * The Vite manifest as PHP sees it after `json_decode($content, true)`: an ordered
 * array from entry names to entry objects. Also the reading steps shared by the Vite
 * extension and the build-artifact validator, and the extension's bounded cache.
 */
module Manifest {
  import opened Wrappers
  import opened Strings

  /** One manifest entry: the built file and, when present, its stylesheets. */
  datatype Entry = Entry(file: Option<string>, css: Option<seq<string>>)

  /** A manifest value: JSON `null` (for which `isset` is false) or an entry object. */
  datatype Value = Null | Object(entry: Entry)

  datatype Item = Item(key: string, value: Value)

  /** A PHP array keeps insertion order; lookups find the first item with the key. */
  type Manifest = seq<Item>

  /** `array_keys($manifest)`. */
  function Keys(m: Manifest): (ks: seq<string>)
    ensures |ks| == |m|
    ensures forall i :: 0 <= i < |m| ==> ks[i] == m[i].key
  {
    seq(|m|, i requires 0 <= i < |m| => m[i].key)
  }

  /** `$manifest[$key]`, or `None` when the key is absent. */
  function Lookup(m: Manifest, key: string): (r: Option<Value>)
    ensures r.None? <==> key !in Keys(m)
    ensures r.Some? ==> Item(key, r.value) in m
  {
    if m == [] then None
    else if m[0].key == key then Some(m[0].value)
    else
      assert Keys(m) == [m[0].key] + Keys(m[1..]);
      Lookup(m[1..], key)
  }

  /** The entry at `key` when `isset($manifest[$key])` holds. */
  function EntryAt(m: Manifest, key: string): (r: Option<Entry>)
    ensures r.Some? ==> Item(key, Object(r.value)) in m
    ensures key !in Keys(m) ==> r.None?
  {
    match Lookup(m, key)
    case Some(Object(e)) => Some(e)
    case _ => None
  }

  /** The only alias: the entry `app` may be stored under its source path. */
  const AppEntry: string := "app"
  const AppSource: string := "js/app.jsx"

  /** `$entry === 'app' ? 'js/app.jsx' : $entry`. */
  function AliasOf(entry: string): (r: string)
    ensures entry != AppEntry ==> r == entry
    ensures entry == AppEntry ==> r == AppSource
  {
    if entry == AppEntry then AppSource else entry
  }

  /** The manifest key an entry resolves to: the exact key first, then the alias. */
  function ResolveKey(m: Manifest, entry: string): (r: Option<string>)
    ensures r.Some? ==> EntryAt(m, r.value).Some?
    ensures r.Some? ==> r.value == entry || (entry == AppEntry && r.value == AppSource)
    ensures EntryAt(m, entry).Some? ==> r == Some(entry)
    ensures r.None? <==> EntryAt(m, entry).None? && EntryAt(m, AliasOf(entry)).None?
  {
    if EntryAt(m, entry).Some? then Some(entry)
    else if EntryAt(m, AliasOf(entry)).Some? then Some(AliasOf(entry))
    else None
  }

  /** Only `app` has a second chance: any other entry resolves exactly when it is set. */
  lemma OnlyAppIsAliased(m: Manifest, entry: string)
    requires entry != AppEntry
    ensures ResolveKey(m, entry).Some? <==> EntryAt(m, entry).Some?
    ensures ResolveKey(m, entry).Some? ==> ResolveKey(m, entry).value == entry
  {
  }

  /** What reading a file gives: `false` (unreadable) or its content. */
  datatype FileState = Unreadable | Readable(content: string)

  /** The files that exist, by path. */
  type Files = map<string, FileState>

  /** What `json_decode($content, true)` produced, with `json_last_error_msg()` or `gettype()`. */
  datatype Decoded = InvalidJson(message: string) | Scalar(typeName: string) | ArrayValue(manifest: Manifest)

  datatype ReadError = NotFound | CannotRead | BadJson(message: string) | NotAnArray(typeName: string)

  /**
   * The checks shared by `loadAndValidateManifest` and `validateManifestFormat`: the
   * file exists, can be read, decodes without a JSON error, and decodes to an array.
   */
  function ReadJsonArray(files: Files, path: string, decode: string -> Decoded): (r: Result<Manifest, ReadError>)
    ensures r == Failure(NotFound) <==> path !in files
    ensures r == Failure(CannotRead) <==> path in files && files[path] == Unreadable
    ensures r.Success? <==> path in files && files[path].Readable? && decode(files[path].content).ArrayValue?
    ensures r.Success? ==> r.value == decode(files[path].content).manifest
    ensures r.Failure? && r.error.BadJson? ==> path in files && files[path].Readable? && decode(files[path].content) == InvalidJson(r.error.message)
    ensures r.Failure? && r.error.NotAnArray? ==> path in files && files[path].Readable? && decode(files[path].content) == Scalar(r.error.typeName)
  {
    if path !in files then Failure(NotFound)
    else match files[path]
      case Unreadable => Failure(CannotRead)
      case Readable(content) =>
        match decode(content)
        case InvalidJson(msg) => Failure(BadJson(msg))
        case Scalar(t) => Failure(NotAnArray(t))
        case ArrayValue(m) => Success(m)
  }

  /** How many manifests the extension keeps. */
  const CacheCapacity: nat := 10

  predicate Distinct(s: seq<string>) {
    forall i, j :: 0 <= i < j < |s| ==> s[i] != s[j]
  }

  /**
   * The extension's manifest cache: decoded manifests by path (the source keys them by
   * `md5($path)`), with `order` recording insertion order for eviction.
   */
  datatype Cache = Cache(order: seq<string>, store: map<string, Manifest>) {
    predicate Valid() {
      |order| <= CacheCapacity && Distinct(order)
      && (forall p | p in store :: p in order) && (forall p | p in order :: p in store)
    }
  }

  const EmptyCache: Cache := Cache([], map[])

  lemma EmptyCacheValid()
    ensures EmptyCache.Valid()
  {
  }

  /** The last `n` elements of `s`, or all of them. */
  function Last(n: nat, s: seq<string>): (r: seq<string>)
    ensures |r| <= n && |r| <= |s|
    ensures |s| <= n ==> r == s
    ensures |s| > n ==> |r| == n
  {
    if |s| <= n then s else s[|s| - n..]
  }

  /** Dropping the first path and appending a new one keeps the paths distinct. */
  lemma DropFirstAppend(order: seq<string>, path: string)
    requires |order| > 0 && Distinct(order) && path !in order
    ensures Distinct(order[1..] + [path])
    ensures forall p :: p in order[1..] + [path] <==> (p in order && p != order[0]) || p == path
  {
    var t := order[1..] + [path];
    assert forall i :: 0 <= i < |order| - 1 ==> t[i] == order[i + 1];
    forall p | p in order && p != order[0]
      ensures p in order[1..]
    {
      var i :| 0 <= i < |order| && order[i] == p;
      assert order[1..][i - 1] == p;
    }
  }

  /** Appending a new path keeps the paths distinct. */
  lemma AppendNew(order: seq<string>, path: string)
    requires Distinct(order) && path !in order
    ensures Distinct(order + [path])
  {
    var t := order + [path];
    assert forall i :: 0 <= i < |order| ==> t[i] == order[i];
  }

  /** The cache after evicting the oldest path and storing a new one is well formed and keeps the newest paths. */
  lemma EvictingInsertValid(c: Cache, path: string, m: Manifest)
    requires c.Valid() && path !in c.store && |c.order| >= CacheCapacity
    ensures var r := Cache(c.order[1..] + [path], (c.store - {c.order[0]})[path := m]);
            r.Valid() && r.order == Last(CacheCapacity, c.order + [path])
  {
    DropFirstAppend(c.order, path);
    assert c.order[1..] + [path] == (c.order + [path])[|c.order| + 1 - CacheCapacity..];
  }

  /** The cache after storing a new path without eviction is well formed and keeps every path. */
  lemma PlainInsertValid(c: Cache, path: string, m: Manifest)
    requires c.Valid() && path !in c.store && |c.order| < CacheCapacity
    ensures var r := Cache(c.order + [path], c.store[path := m]);
            r.Valid() && r.order == Last(CacheCapacity, c.order + [path])
  {
    AppendNew(c.order, path);
  }

  /** Storing a manifest that is not cached yet: the oldest is dropped first when the cache is full. */
  function Insert(c: Cache, path: string, m: Manifest): (r: Cache)
    requires c.Valid() && path !in c.store
    ensures r.Valid()
    ensures path in r.store && r.store[path] == m
    ensures forall p :: p in r.store && p != path ==> p in c.store && r.store[p] == c.store[p]
    ensures |c.order| < CacheCapacity ==> forall p :: p in c.store ==> p in r.store
    ensures |c.order| == CacheCapacity ==> c.order[0] !in r.store && forall p :: p in c.store && p != c.order[0] ==> p in r.store
    ensures r.order == Last(CacheCapacity, c.order + [path])
  {
    if |c.order| >= CacheCapacity then
      EvictingInsertValid(c, path, m);
      Cache(c.order[1..] + [path], (c.store - {c.order[0]})[path := m])
    else
      PlainInsertValid(c, path, m);
      Cache(c.order + [path], c.store[path := m])
  }

  /**
   * `loadAndValidateManifest`: a cached manifest is returned as it is, without looking
   * at the file; otherwise the file is read and, only when it holds an array, cached.
   */
  function Load(c: Cache, files: Files, path: string, decode: string -> Decoded): (res: (Result<Manifest, ReadError>, Cache))
    requires c.Valid()
    ensures res.1.Valid()
    ensures path in c.store ==> res == (Success(c.store[path]), c)
    ensures path !in c.store ==> res.0 == ReadJsonArray(files, path, decode)
    ensures res.0.Failure? ==> res.1 == c
    ensures res.0.Success? ==> path in res.1.store && res.1.store[path] == res.0.value
  {
    if path in c.store then (Success(c.store[path]), c)
    else
      match ReadJsonArray(files, path, decode)
      case Failure(e) => (Failure(e), c)
      case Success(m) => (Success(m), Insert(c, path, m))
  }

  /** Once loaded, a manifest is served from the cache: later file contents do not matter. */
  lemma LoadThenHit(c: Cache, files: Files, later: Files, path: string, decode: string -> Decoded, decodeLater: string -> Decoded)
    requires c.Valid()
    requires Load(c, files, path, decode).0.Success?
    ensures var (r1, c1) := Load(c, files, path, decode);
            Load(c1, later, path, decodeLater) == (r1, c1)
  {
  }

  /** Taking the last `n` twice is taking it once over the whole sequence. */
  lemma LastOfLast(n: nat, a: seq<string>, b: seq<string>)
    ensures Last(n, Last(n, a) + b) == Last(n, a + b)
  {
    if |a| > n {
      var s := a[|a| - n..] + b;
      var t := a + b;
      if |s| > n {
        assert s[|s| - n..] == t[|t| - n..];
      } else {
        assert b == [];
        assert t == a;
      }
    }
  }

  /** Storing each path in turn, as a run of cache misses does. */
  function InsertAll(c: Cache, paths: seq<string>, m: Manifest): (r: Cache)
    requires c.Valid() && Distinct(paths)
    requires forall i :: 0 <= i < |paths| ==> paths[i] !in c.store
    ensures r.Valid()
    decreases |paths|
  {
    if paths == [] then c
    else
      var c1 := Insert(c, paths[0], m);
      assert forall i :: 0 < i < |paths| ==> paths[i] != paths[0];
      assert forall i :: 0 <= i < |paths| - 1 ==> paths[1..][i] == paths[i + 1];
      InsertAll(c1, paths[1..], m)
  }

  /** One step of `InsertAll`: the first path is stored, and the rest still meet the precondition. */
  lemma InsertAllStep(c: Cache, paths: seq<string>, m: Manifest)
    requires c.Valid() && Distinct(paths) && paths != []
    requires forall i :: 0 <= i < |paths| ==> paths[i] !in c.store
    ensures var c1 := Insert(c, paths[0], m);
            c1.Valid() && Distinct(paths[1..])
            && (forall i :: 0 <= i < |paths[1..]| ==> paths[1..][i] !in c1.store)
            && InsertAll(c, paths, m) == InsertAll(c1, paths[1..], m)
            && c1.order == Last(CacheCapacity, c.order + [paths[0]])
  {
    var c1 := Insert(c, paths[0], m);
    var rest := paths[1..];
    assert forall i :: 0 <= i < |rest| ==> rest[i] == paths[i + 1] && paths[i + 1] != paths[0];
  }

  /** The eviction order after storing each path in turn, computed on the order alone. */
  function OrderAfter(order: seq<string>, paths: seq<string>): seq<string>
    decreases |paths|
  {
    if paths == [] then order else OrderAfter(Last(CacheCapacity, order + [paths[0]]), paths[1..])
  }

  lemma {:induction false} OrderAfterIsLast(order: seq<string>, paths: seq<string>)
    requires |order| <= CacheCapacity
    ensures OrderAfter(order, paths) == Last(CacheCapacity, order + paths)
    decreases |paths|
  {
    if paths == [] {
      assert order + paths == order;
    } else {
      OrderAfterIsLast(Last(CacheCapacity, order + [paths[0]]), paths[1..]);
      LastOfLast(CacheCapacity, order + [paths[0]], paths[1..]);
      assert order + [paths[0]] + paths[1..] == order + paths;
    }
  }

  lemma {:induction false} InsertAllOrder(c: Cache, paths: seq<string>, m: Manifest)
    requires c.Valid() && Distinct(paths)
    requires forall i :: 0 <= i < |paths| ==> paths[i] !in c.store
    ensures InsertAll(c, paths, m).order == OrderAfter(c.order, paths)
    decreases |paths|
  {
    if paths != [] {
      InsertAllStep(c, paths, m);
      InsertAllOrder(Insert(c, paths[0], m), paths[1..], m);
    }
  }

  /**
   * The cache is first-in first-out: after any run of misses it holds exactly the ten
   * most recently stored paths, oldest first.
   */
  lemma InsertAllKeepsNewest(c: Cache, paths: seq<string>, m: Manifest)
    requires c.Valid() && Distinct(paths)
    requires forall i :: 0 <= i < |paths| ==> paths[i] !in c.store
    ensures InsertAll(c, paths, m).order == Last(CacheCapacity, c.order + paths)
  {
    InsertAllOrder(c, paths, m);
    OrderAfterIsLast(c.order, paths);
  }
}
