/** The on-disk cache of downloaded language-server builds (src/cache.rs):
    one directory per LSP version, the server script inside it, a cache-hit
    test, and the heuristic removal of directories left by older versions. */
module LspCache {
  import opened Wrappers
  import opened Strings
  import opened Decimal
  import opened Files

  const CachePrefix: string := "lsp-cache-"
  const ServerScript: string := "start-server.js"

  /** Bounds of the version grid the cleanup tries, all inclusive. */
  const MinMajor: nat := 1
  const MaxMajor: nat := 5
  const MaxMinor: nat := 20
  const MaxPatch: nat := 10

  datatype Cache = Cache(versionDir: string)

  /** `Cache::new`: the cache directory of one LSP version. */
  function NewCache(lspVersion: string): (c: Cache)
    ensures CachePrefix <= c.versionDir
    ensures c.versionDir[|CachePrefix|..] == lspVersion
  {
    Cache(CachePrefix + lspVersion)
  }

  /** `Cache::server_path`: the server script, directly inside the version directory. */
  function ServerPath(c: Cache): (p: string)
    ensures Under(p, c.versionDir)
    ensures p[|c.versionDir| + 1..] == ServerScript
  {
    c.versionDir + "/" + ServerScript
  }

  /** `Cache::find_cached_build`: the server path when a regular file is
      there, nothing otherwise. */
  function FindCachedBuild(c: Cache, fs: FileSystem): (r: Option<string>)
    ensures r.Some? <==> ServerPath(c) in fs.files
    ensures r.Some? ==> r.value == ServerPath(c)
  {
    var p := ServerPath(c);
    if p in fs.files then Some(p) else None
  }

  // ---------------------------------------------------------------------
  // The version grid of `cleanup_old_versions`

  predicate InGrid(major: nat, minor: nat, patch: nat) {
    MinMajor <= major <= MaxMajor && minor <= MaxMinor && patch <= MaxPatch
  }

  /** `format!("lsp-cache-{major}.{minor}.{patch}")`. */
  function OldDirName(major: nat, minor: nat, patch: nat): string {
    CachePrefix + VersionString(major, minor, patch)
  }

  /** `M.m.p` in decimal. */
  function VersionString(major: nat, minor: nat, patch: nat): string {
    NatToString(major) + "." + NatToString(minor) + "." + NatToString(patch)
  }

  /** Every directory name the cleanup loops generate. */
  function OldVersionDirs(): set<string> {
    set major: nat, minor: nat, patch: nat
      | 1 <= major <= 5 && minor <= 20 && patch <= 10
      :: OldDirName(major, minor, patch)
  }

  /** What the cleanup asks to remove for a cache: the grid minus the
      current version directory. */
  function RemovalSet(c: Cache): set<string> {
    OldVersionDirs() - {c.versionDir}
  }

  /** The filesystem after `cleanup_old_versions`, all removal errors ignored. */
  function Cleanup(c: Cache, fs: FileSystem): (r: FileSystem)
    ensures r.dirs <= fs.dirs && r.files <= fs.files
  {
    RemoveDirs(fs, RemovalSet(c))
  }

  // ---------------------------------------------------------------------
  // An independent reading of grid names: parse the name back

  datatype Version = Version(major: nat, minor: nat, patch: nat)

  /** Reads `M.m.p` made of three canonical numerals. */
  function ParseVersion(s: string): Option<Version> {
    var parts := Split(s, '.');
    if |parts| != 3 then None
    else
      var major :- ParseNat(parts[0]);
      var minor :- ParseNat(parts[1]);
      var patch :- ParseNat(parts[2]);
      Some(Version(major, minor, patch))
  }

  /** Reads `lsp-cache-M.m.p`. */
  function ParseCacheDir(d: string): Option<Version> {
    if CachePrefix <= d then ParseVersion(d[|CachePrefix|..]) else None
  }

  /** `d` names the cache directory of a version inside the cleanup grid. */
  predicate IsOldVersionDir(d: string) {
    match ParseCacheDir(d)
    case Some(v) => InGrid(v.major, v.minor, v.patch)
    case None => false
  }

  /** The prefix is stripped and the rest read as a version. */
  lemma ParseCacheDirPrefixed(s: string)
    ensures ParseCacheDir(CachePrefix + s) == ParseVersion(s)
  {
    assert (CachePrefix + s)[..|CachePrefix|] == CachePrefix;
    assert (CachePrefix + s)[|CachePrefix|..] == s;
  }

  /** Three dot-free components parse exactly when each is a canonical
      numeral. */
  lemma ParseVersionThree(a: string, b: string, c: string)
    requires '.' !in a && '.' !in b && '.' !in c
    ensures ParseVersion(a + "." + b + "." + c)
         == if IsCanonical(a) && IsCanonical(b) && IsCanonical(c)
            then Some(Version(DigitsValue(a), DigitsValue(b), DigitsValue(c)))
            else None
  {
    SplitNoSeparator(a, '.');
    SplitNoSeparator(b, '.');
    SplitNoSeparator(c, '.');
    SplitAtSeparator(b, c, '.');
    assert a + "." + b + "." + c == a + ['.'] + (b + ['.'] + c);
    SplitAtSeparator(a, b + ['.'] + c, '.');
  }

  /** A parsed version reads back as its three rendered numbers. */
  lemma ParseVersionInverse(s: string, v: Version)
    requires ParseVersion(s) == Some(v)
    ensures s == VersionString(v.major, v.minor, v.patch)
  {
    var parts := Split(s, '.');
    assert ParseNat(parts[0]) == Some(v.major);
    assert ParseNat(parts[1]) == Some(v.minor);
    assert ParseNat(parts[2]) == Some(v.patch);
    JoinSplit(s, '.');
    JoinThree(parts, '.');
  }

  lemma ParseOldDirName(major: nat, minor: nat, patch: nat)
    ensures ParseCacheDir(OldDirName(major, minor, patch)) == Some(Version(major, minor, patch))
  {
    var a, b, c := NatToString(major), NatToString(minor), NatToString(patch);
    NumeralHasNo(major, '.');
    NumeralHasNo(minor, '.');
    NumeralHasNo(patch, '.');
    ParseVersionThree(a, b, c);
    ParseCacheDirPrefixed(VersionString(major, minor, patch));
  }

  lemma OldDirNameOfParse(d: string, v: Version)
    requires ParseCacheDir(d) == Some(v)
    ensures OldDirName(v.major, v.minor, v.patch) == d
  {
    var s := d[|CachePrefix|..];
    ParseVersionInverse(s, v);
    assert d == CachePrefix + s;
  }

  /** The grid is exactly the set of directory names that parse as a
      version inside the grid bounds. */
  lemma OldVersionDirsCharacterization(d: string)
    ensures d in OldVersionDirs() <==> IsOldVersionDir(d)
  {
    if d in OldVersionDirs() {
      var major: nat, minor: nat, patch: nat :|
        1 <= major <= 5 && minor <= 20 && patch <= 10 && d == OldDirName(major, minor, patch);
      ParseOldDirName(major, minor, patch);
    }
    if IsOldVersionDir(d) {
      var v := ParseCacheDir(d).value;
      OldDirNameOfParse(d, v);
      assert OldDirName(v.major, v.minor, v.patch) in OldVersionDirs();
    }
  }

  /** What the cleanup targets, read through the parser: a grid version
      directory other than the current one. */
  lemma RemovalSetCharacterization(c: Cache, d: string)
    ensures d in RemovalSet(c) <==> d != c.versionDir && IsOldVersionDir(d)
  {
    OldVersionDirsCharacterization(d);
  }

  /** Grid names are plain names in the working directory: no `/`. */
  lemma OldDirNameFlat(major: nat, minor: nat, patch: nat)
    ensures '/' !in OldDirName(major, minor, patch)
  {
    NumeralHasNo(major, '/');
    NumeralHasNo(minor, '/');
    NumeralHasNo(patch, '/');
  }

  lemma OldVersionDirsFlat(d: string)
    requires d in OldVersionDirs()
    ensures '/' !in d
  {
    var major: nat, minor: nat, patch: nat :|
      1 <= major <= 5 && minor <= 20 && patch <= 10 && d == OldDirName(major, minor, patch);
    OldDirNameFlat(major, minor, patch);
  }

  // ---------------------------------------------------------------------
  // `cleanup_old_versions` as written: three nested loops

  /** The loops of `Cache::cleanup_old_versions`, issuing one
      `remove_dir_all` per grid name other than the current directory, in
      loop order; the outcome is the set-wise `Cleanup`. */
  method CleanupOldVersions(c: Cache, fs: FileSystem) returns (result: FileSystem)
    ensures result == Cleanup(c, fs)
  {
    var current := c.versionDir;
    result := fs;
    ghost var removed: set<string> := {};
    var major := 1;
    while major <= 5
      invariant 1 <= major <= 6
      invariant removed <= RemovalSet(c)
      invariant result == RemoveDirs(fs, removed)
      invariant forall M: nat, m: nat, p: nat :: InGrid(M, m, p) && M < major ==>
                  OldDirName(M, m, p) in removed + {current}
    {
      var minor := 0;
      while minor <= 20
        invariant 0 <= minor <= 21
        invariant removed <= RemovalSet(c)
        invariant result == RemoveDirs(fs, removed)
        invariant forall M: nat, m: nat, p: nat ::
                    InGrid(M, m, p) && (M < major || (M == major && m < minor)) ==>
                    OldDirName(M, m, p) in removed + {current}
      {
        var patch := 0;
        while patch <= 10
          invariant 0 <= patch <= 11
          invariant removed <= RemovalSet(c)
          invariant result == RemoveDirs(fs, removed)
          invariant forall M: nat, m: nat, p: nat ::
                      InGrid(M, m, p) && (M < major || (M == major && (m < minor || (m == minor && p < patch)))) ==>
                      OldDirName(M, m, p) in removed + {current}
        {
          var oldDir := OldDirName(major, minor, patch);
          if oldDir != current {
            RemoveDirsCompose(fs, removed, {oldDir});
            result := RemoveDirAll(result, oldDir);
            removed := removed + {oldDir};
          }
          patch := patch + 1;
        }
        minor := minor + 1;
      }
      major := major + 1;
    }
    forall d | d in RemovalSet(c) ensures d in removed {
      var M: nat, m: nat, p: nat :| 1 <= M <= 5 && m <= 20 && p <= 10 && d == OldDirName(M, m, p);
      assert InGrid(M, m, p);
    }
  }

  // ---------------------------------------------------------------------
  // Properties of the cleanup

  /** The current version directory and everything below it survive, as
      long as the version string has no `/` (otherwise the current
      directory may be nested inside a grid directory; see
      `NestedCurrentIsRemoved`). */
  lemma CleanupKeepsCurrent(lspVersion: string, fs: FileSystem, x: string)
    requires '/' !in lspVersion
    requires x == NewCache(lspVersion).versionDir || Under(x, NewCache(lspVersion).versionDir)
    ensures x in Cleanup(NewCache(lspVersion), fs).dirs <==> x in fs.dirs
    ensures x in Cleanup(NewCache(lspVersion), fs).files <==> x in fs.files
  {
    var c := NewCache(lspVersion);
    var current := c.versionDir;
    assert current == CachePrefix + lspVersion;
    assert '/' !in current;
    forall r | r in RemovalSet(c) ensures x != r && !Under(x, r) {
      OldVersionDirsFlat(r);
      if x == r && x != current {
        UnderHasSlash(x, current);
      }
      if Under(x, r) {
        if x == current {
          UnderHasSlash(x, r);
        } else {
          UnderDistinctFlat(x, r, current);
        }
      }
    }
    RemoveDirsFrame(fs, RemovalSet(c), x);
  }

  /** A cache hit survives the cleanup. */
  lemma CleanupPreservesCacheHit(lspVersion: string, fs: FileSystem)
    requires '/' !in lspVersion
    ensures FindCachedBuild(NewCache(lspVersion), Cleanup(NewCache(lspVersion), fs))
         == FindCachedBuild(NewCache(lspVersion), fs)
  {
    CleanupKeepsCurrent(lspVersion, fs, ServerPath(NewCache(lspVersion)));
  }

  /** Soundness: whatever the cleanup removes is a grid version directory
      other than the current one, or lies below such a directory. */
  lemma CleanupRemovesOnlyOldVersions(c: Cache, fs: FileSystem, x: string)
    requires (x in fs.dirs && x !in Cleanup(c, fs).dirs)
          || (x in fs.files && x !in Cleanup(c, fs).files)
    ensures exists r :: r in fs.dirs && r != c.versionDir && IsOldVersionDir(r) && (x == r || Under(x, r))
  {
    RemoveDirsOnlyTargets(fs, RemovalSet(c), x);
    var r :| r in RemovalSet(c) && r in fs.dirs && (x == r || Under(x, r));
    RemovalSetCharacterization(c, r);
  }

  /** Completeness: every grid version directory other than the current one
      is gone afterwards, together with everything below it. */
  lemma CleanupRemovesOldVersions(c: Cache, fs: FileSystem, r: string)
    requires r in fs.dirs && r != c.versionDir && IsOldVersionDir(r)
    ensures r !in Cleanup(c, fs).dirs
    ensures forall x :: Under(x, r) ==> x !in Cleanup(c, fs).dirs && x !in Cleanup(c, fs).files
  {
    RemovalSetCharacterization(c, r);
    RemoveDirsRemoves(fs, RemovalSet(c), r);
  }

  /** For an entry directly in the working directory: a directory survives
      exactly when it is the current one or not a grid version directory,
      and a regular file always survives. */
  lemma CleanupTopLevel(c: Cache, fs: FileSystem, x: string)
    requires '/' !in x
    ensures x in Cleanup(c, fs).dirs <==> x in fs.dirs && (x == c.versionDir || !IsOldVersionDir(x))
    ensures x in Cleanup(c, fs).files <==> x in fs.files
  {
    RemovalSetCharacterization(c, x);
    if x !in RemovalSet(c) {
      forall r | r in RemovalSet(c) ensures !Under(x, r) {
        if Under(x, r) {
          UnderHasSlash(x, r);
        }
      }
      RemoveDirsFrame(fs, RemovalSet(c), x);
    } else {
      forall r | r in RemovalSet(c) * fs.dirs ensures !Under(x, r) {
        if Under(x, r) {
          UnderHasSlash(x, r);
        }
      }
    }
  }

  /** Running the cleanup a second time changes nothing. */
  lemma CleanupIdempotent(c: Cache, fs: FileSystem)
    ensures Cleanup(c, Cleanup(c, fs)) == Cleanup(c, fs)
  {
    RemoveDirsCompose(fs, RemovalSet(c), RemovalSet(c));
    assert RemovalSet(c) + RemovalSet(c) == RemovalSet(c);
  }

  /** A generated name is a grid version directory exactly when its
      numbers are inside the grid bounds. */
  lemma OldDirNameIsOldVersionDir(major: nat, minor: nat, patch: nat)
    ensures IsOldVersionDir(OldDirName(major, minor, patch)) <==> InGrid(major, minor, patch)
  {
    ParseOldDirName(major, minor, patch);
  }

  // The examples take the directory name as a parameter fixed by `requires`
  // so that the verifier reasons about the parse step by step instead of
  // evaluating every function on the literal at once.

  /** A major version above 5 is spared by the cleanup, ... */
  lemma MajorAboveGridExample(d: string)
    requires d == "lsp-cache-6.0.0"
    ensures !IsOldVersionDir(d)
  {
    OldDirNameIsOldVersionDir(6, 0, 0);
    assert OldDirName(6, 0, 0) == d;
  }

  /** ... and so is a major version 0, ... */
  lemma MajorBelowGridExample(d: string)
    requires d == "lsp-cache-0.9.1"
    ensures !IsOldVersionDir(d)
  {
    OldDirNameIsOldVersionDir(0, 9, 1);
    assert OldDirName(0, 9, 1) == d;
  }

  /** ... a minor version above 20, ... */
  lemma MinorAboveGridExample(d: string)
    requires d == "lsp-cache-1.21.0"
    ensures !IsOldVersionDir(d)
  {
    OldDirNameIsOldVersionDir(1, 21, 0);
    assert OldDirName(1, 21, 0) == d;
  }

  /** ... or a patch above 10; the grid's last corner is removed. */
  lemma PatchAboveGridExample(d: string)
    requires d == "lsp-cache-5.20.11"
    ensures !IsOldVersionDir(d)
  {
    OldDirNameIsOldVersionDir(5, 20, 11);
    assert OldDirName(5, 20, 11) == d;
  }

  lemma GridCornerExample(d: string)
    requires d == "lsp-cache-5.20.10"
    ensures IsOldVersionDir(d)
  {
    OldDirNameIsOldVersionDir(5, 20, 10);
    assert OldDirName(5, 20, 10) == d;
  }

  /** Names that are not `M.m.p` in canonical numerals are not grid
      version directories, even when their numbers are in range: a leading
      zero, ... */
  lemma LeadingZeroExample(d: string)
    requires d == "lsp-cache-01.0.0"
    ensures !IsOldVersionDir(d)
  {
    var v := "01" + "." + "0" + "." + "0";
    ParseVersionThree("01", "0", "0");
    ParseCacheDirPrefixed(v);
    assert d == CachePrefix + v;
    assert !IsCanonical("01");
  }

  /** ... a missing component, ... */
  lemma MissingComponentExample(d: string)
    requires d == "lsp-cache-1.0"
    ensures !IsOldVersionDir(d)
  {
    SplitNoSeparator("1", '.');
    SplitNoSeparator("0", '.');
    SplitAtSeparator("1", "0", '.');
    assert d[|CachePrefix|..] == "1" + ['.'] + "0";
  }

  /** ... or a pre-release suffix. */
  lemma PreReleaseExample(d: string)
    requires d == "lsp-cache-1.0.0-beta"
    ensures !IsOldVersionDir(d)
  {
    var v := "1" + "." + "0" + "." + "0-beta";
    ParseVersionThree("1", "0", "0-beta");
    ParseCacheDirPrefixed(v);
    assert d == CachePrefix + v;
    assert !IsCanonical("0-beta");
  }

  /** Why the cleanup lemmas ask for a version without `/`: with the
      version `1.0.0/x` the current directory sits inside the grid
      directory `lsp-cache-1.0.0`, which the cleanup removes. */
  lemma NestedCurrentIsRemoved()
    ensures var c := NewCache("1.0.0/x");
            var fs := FileSystem({"lsp-cache-1.0.0", "lsp-cache-1.0.0/x"}, {ServerPath(c)});
            FindCachedBuild(c, fs).Some? && FindCachedBuild(c, Cleanup(c, fs)).None?
  {
    var c := NewCache("1.0.0/x");
    var fs := FileSystem({"lsp-cache-1.0.0", "lsp-cache-1.0.0/x"}, {ServerPath(c)});
    var g := OldDirName(1, 0, 0);
    assert g == "lsp-cache-1.0.0";
    assert g in OldVersionDirs();
    assert g in RemovalSet(c);
    assert Under(ServerPath(c), g);
  }
}
