/**
 * Path helpers of the bundle (`BundlePathResolver` and the copies of its logic in
 * `ViteExtension`, `ReactAssetsBuildCommand` and `ScriptHandler`), with the directory
 * separator fixed to '/', and PHP's `dirname` as it behaves on a Unix system.
 */
module Paths {
  import opened Wrappers
  import opened Strings

  const Separator: char := '/'

  /** The marker whose presence means the bundle was installed by Composer. */
  const VendorMarker: string := "/vendor/"

  predicate IsSlash(c: char) {
    c == Separator
  }

  predicate IsNotSlash(c: char) {
    c != Separator
  }

  predicate NoBackslash(p: string) {
    forall i :: 0 <= i < |p| ==> p[i] != '\\'
  }

  predicate IsPrefix(prefix: string, p: string) {
    StartsWith(p, prefix)
  }

  predicate IsAbsolute(p: string) {
    |p| > 0 && p[0] == Separator
  }

  /** A single path component: non-empty, without separators of either kind. */
  predicate IsComponent(c: string) {
    |c| > 0 && forall i :: 0 <= i < |c| ==> c[i] != '/' && c[i] != '\\'
  }

  /** `str_replace(['\\', '/'], DIRECTORY_SEPARATOR, $path)`. */
  function NormalizePath(p: string): (r: string)
    ensures |r| == |p|
    ensures NoBackslash(r)
    ensures forall i :: 0 <= i < |p| && p[i] != '\\' ==> r[i] == p[i]
  {
    seq(|p|, i requires 0 <= i < |p| => if p[i] == '\\' || p[i] == '/' then Separator else p[i])
  }

  /** Normalising twice is normalising once. */
  lemma NormalizeIdempotent(p: string)
    ensures NormalizePath(NormalizePath(p)) == NormalizePath(p)
  {
    NormalizeFixesPlainPaths(NormalizePath(p));
  }

  /** A path without backslashes is left exactly as it is. */
  lemma NormalizeFixesPlainPaths(p: string)
    requires NoBackslash(p)
    ensures NormalizePath(p) == p
  {
  }

  /** PHP's `dirname($p)` on Unix (`zend_dirname`): trailing slashes, then the last name, then the slashes before it are removed. */
  function Dirname(p: string): (r: string)
    ensures IsAbsolute(p) ==> IsAbsolute(r) && IsPrefix(r, p)
    ensures NoBackslash(p) ==> NoBackslash(r)
  {
    if p == [] then []
    else
      var a := TrimRightWhere(p, IsSlash);
      if a == [] then "/"
      else
        var b := TrimRightWhere(a, IsNotSlash);
        if b == [] then "."
        else
          var c := TrimRightWhere(b, IsSlash);
          if c == [] then "/" else c
  }

  /** `dirname($p, $levels)`: `Dirname` applied `levels` times. */
  function DirnameLevels(p: string, levels: nat): (r: string)
    ensures IsAbsolute(p) ==> IsAbsolute(r) && IsPrefix(r, p)
    ensures NoBackslash(p) ==> NoBackslash(r)
    decreases levels
  {
    if levels == 0 then p else DirnameLevels(Dirname(p), levels - 1)
  }

  /** Going up from `x/c`, for a single component `c`, gives back `x`. */
  lemma DirnameOfChild(x: string, c: string)
    requires |x| > 0 && x[|x| - 1] != Separator
    requires IsComponent(c)
    ensures Dirname(x + "/" + c) == x
  {
    var p := x + "/" + c;
    TrimRightWhereIs(p, IsSlash, |p|);
    TrimRightWhereIs(p, IsNotSlash, |x| + 1);
    assert p[..|x| + 1] == x + "/";
    TrimRightWhereIs(x + "/", IsSlash, |x|);
    assert (x + "/")[..|x|] == x;
  }

  /** How many levels the project root lies above the bundle directory. */
  function RootLevels(bundlePath: string): nat
  {
    if Contains(bundlePath, VendorMarker) then 3 else 2
  }

  /**
   * `BundlePathResolver::getProjectRoot`: the normalised bundle path, three levels up
   * when it lies under `/vendor/`, two levels up otherwise.
   */
  function ProjectRoot(bundlePath: string): (r: string)
    ensures NoBackslash(r)
    ensures IsAbsolute(NormalizePath(bundlePath)) ==> IsAbsolute(r) && IsPrefix(r, NormalizePath(bundlePath))
  {
    var b := NormalizePath(bundlePath);
    var up := DirnameLevels(b, RootLevels(b));
    NormalizeFixesPlainPaths(up);
    NormalizePath(up)
  }

  /** A path the shape `root/vendor/<vendor>/<package>` describes. */
  function VendorBundle(root: string, vendor: string, package: string): string
  {
    root + VendorMarker + vendor + "/" + package
  }

  /** A project root: absolute, no trailing separator, no backslash. */
  predicate IsRootDir(root: string) {
    IsAbsolute(root) && root[|root| - 1] != Separator && NoBackslash(root)
  }

  /** Going up three levels from `x/a/b/c` gives back `x`. */
  lemma DirnameThreeLevels(x: string, a: string, b: string, c: string)
    requires |x| > 0 && x[|x| - 1] != Separator
    requires IsComponent(a) && IsComponent(b) && IsComponent(c)
    ensures DirnameLevels(x + "/" + a + "/" + b + "/" + c, 3) == x
  {
    var xa := x + "/" + a;
    var xab := xa + "/" + b;
    assert xa[|xa| - 1] == a[|a| - 1];
    assert xab[|xab| - 1] == b[|b| - 1];
    DirnameOfChild(xab, c);
    DirnameOfChild(xa, b);
    DirnameOfChild(x, a);
    calc {
      DirnameLevels(xab + "/" + c, 3);
      DirnameLevels(Dirname(xab + "/" + c), 2);
      DirnameLevels(xab, 2);
      DirnameLevels(Dirname(xab), 1);
      DirnameLevels(xa, 1);
      DirnameLevels(Dirname(xa), 0);
    }
  }

  /** Going up two levels from `x/a/b` gives back `x`. */
  lemma DirnameTwoLevels(x: string, a: string, b: string)
    requires |x| > 0 && x[|x| - 1] != Separator
    requires IsComponent(a) && IsComponent(b)
    ensures DirnameLevels(x + "/" + a + "/" + b, 2) == x
  {
    var xa := x + "/" + a;
    assert xa[|xa| - 1] == a[|a| - 1];
    DirnameOfChild(xa, b);
    DirnameOfChild(x, a);
    calc {
      DirnameLevels(xa + "/" + b, 2);
      DirnameLevels(Dirname(xa + "/" + b), 1);
      DirnameLevels(xa, 1);
      DirnameLevels(Dirname(xa), 0);
    }
  }

  /** A bundle installed by Composer under `root/vendor/<vendor>/<package>` has `root` as project root. */
  lemma ProjectRootOfVendorBundle(root: string, vendor: string, package: string)
    requires IsRootDir(root) && IsComponent(vendor) && IsComponent(package)
    ensures ProjectRoot(VendorBundle(root, vendor, package)) == root
  {
    var p := VendorBundle(root, vendor, package);
    assert p == root + "/" + "vendor" + "/" + vendor + "/" + package;
    assert NoBackslash(p);
    NormalizeFixesPlainPaths(p);
    assert OccursAt(p, VendorMarker, |root|);
    DirnameThreeLevels(root, "vendor", vendor, package);
  }

  /** A bundle kept in the project as `root/<dir>/<name>` (no `/vendor/` in it) has `root` as project root. */
  lemma ProjectRootOfLocalBundle(root: string, dir: string, name: string)
    requires IsRootDir(root) && IsComponent(dir) && IsComponent(name)
    requires !Contains(root + "/" + dir + "/" + name, VendorMarker)
    ensures ProjectRoot(root + "/" + dir + "/" + name) == root
  {
    var p := root + "/" + dir + "/" + name;
    assert NoBackslash(p);
    NormalizeFixesPlainPaths(p);
    DirnameTwoLevels(root, dir, name);
  }

  /** `BundlePathResolver::getPublicBuildPath`: `<project root>/public/<normalised build dir>`. */
  function PublicBuildPath(bundlePath: string, buildDir: string): (r: string)
    ensures StartsWith(r, ProjectRoot(bundlePath) + "/public/")
    ensures EndsWith(r, NormalizePath(buildDir))
    ensures NoBackslash(r)
  {
    ProjectRoot(bundlePath) + "/public/" + NormalizePath(buildDir)
  }

  /** The manifest location Vite 5 uses: `<build>/.vite/manifest.json`. */
  function ViteDirManifest(bundlePath: string, buildDir: string): string
  {
    PublicBuildPath(bundlePath, buildDir) + "/.vite/manifest.json"
  }

  /** The older manifest location: `<build>/manifest.json`. */
  function FlatManifest(bundlePath: string, buildDir: string): string
  {
    PublicBuildPath(bundlePath, buildDir) + "/manifest.json"
  }

  /** The two candidate locations differ, so preferring one of them is a real choice. */
  lemma ManifestCandidatesDiffer(bundlePath: string, buildDir: string)
    ensures ViteDirManifest(bundlePath, buildDir) != FlatManifest(bundlePath, buildDir)
  {
    var b := PublicBuildPath(bundlePath, buildDir);
    assert |ViteDirManifest(bundlePath, buildDir)| != |FlatManifest(bundlePath, buildDir)|;
  }

  /**
   * `BundlePathResolver::getManifestPath`: the `.vite/` manifest when it exists, else
   * the flat one when it exists, else none. `existing` is the set of existing files.
   */
  function ManifestPath(bundlePath: string, buildDir: string, existing: set<string>): (r: Option<string>)
    ensures r.Some? ==> r.value in existing
    ensures r.Some? ==> r.value == ViteDirManifest(bundlePath, buildDir) || r.value == FlatManifest(bundlePath, buildDir)
    ensures r.None? <==> ViteDirManifest(bundlePath, buildDir) !in existing && FlatManifest(bundlePath, buildDir) !in existing
    ensures ViteDirManifest(bundlePath, buildDir) in existing ==> r == Some(ViteDirManifest(bundlePath, buildDir))
  {
    var viteDir := ViteDirManifest(bundlePath, buildDir);
    var flat := FlatManifest(bundlePath, buildDir);
    if viteDir in existing then Some(viteDir)
    else if flat in existing then Some(flat)
    else None
  }

  /**
   * The path `ViteExtension` settles on before testing existence: the `.vite/`
   * manifest when it exists, otherwise the flat one (which may not exist either).
   */
  function ChosenManifestPath(bundlePath: string, buildDir: string, existing: set<string>): (r: string)
    ensures r == ViteDirManifest(bundlePath, buildDir) || r == FlatManifest(bundlePath, buildDir)
    ensures ViteDirManifest(bundlePath, buildDir) in existing ==> r == ViteDirManifest(bundlePath, buildDir)
  {
    var viteDir := ViteDirManifest(bundlePath, buildDir);
    if viteDir in existing then viteDir else FlatManifest(bundlePath, buildDir)
  }

  /** The extension's choice and the resolver's answer agree: the resolver finds a manifest exactly when the chosen path exists, and then names it. */
  lemma ChosenPathAgreesWithResolver(bundlePath: string, buildDir: string, existing: set<string>)
    ensures ChosenManifestPath(bundlePath, buildDir, existing) in existing
        <==> ManifestPath(bundlePath, buildDir, existing) == Some(ChosenManifestPath(bundlePath, buildDir, existing))
    ensures ManifestPath(bundlePath, buildDir, existing).None? <==> ChosenManifestPath(bundlePath, buildDir, existing) !in existing
  {
  }
}
