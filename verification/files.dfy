/** An abstract filesystem as the extension sees it from its working
    directory: the set of directory paths and the set of regular-file paths,
    with `/` as the path separator. Permissions, symbolic links, partial
    failures and contents are not modelled. */
module Files {

  datatype FileSystem = FileSystem(dirs: set<string>, files: set<string>)

  /** `path` lies somewhere below the directory `dir`. */
  predicate Under(path: string, dir: string) {
    dir + "/" <= path
  }

  /** `path` lies below one of `roots`. */
  predicate UnderSome(path: string, roots: set<string>) {
    exists r :: r in roots && Under(path, r)
  }

  lemma UnderTransitive(x: string, y: string, z: string)
    requires Under(x, y) && Under(y, z)
    ensures Under(x, z)
  {
    assert y <= y + "/";
  }

  /** A path below a directory contains a `/`. */
  lemma UnderHasSlash(x: string, d: string)
    requires Under(x, d)
    ensures '/' in x
  {
    assert x[|d|] == (d + "/")[|d|];
  }

  /** Two directories neither of which contains `/` have no path below both,
      unless they are the same directory. */
  lemma UnderDistinctFlat(x: string, d1: string, d2: string)
    requires '/' !in d1 && '/' !in d2
    requires Under(x, d1) && Under(x, d2)
    ensures d1 == d2
  {
    assert x[|d1|] == '/' && x[|d2|] == '/';
    assert forall i :: 0 <= i < |d1| ==> d1[i] == x[i];
    assert forall i :: 0 <= i < |d2| ==> d2[i] == x[i];
    assert d1 == x[..|d1|] && d2 == x[..|d2|];
  }

  /** `std::fs::remove_dir_all` applied to every path in `targets`, with
      errors ignored: each target that is a directory disappears together
      with everything below it; a target that is missing or is a regular
      file is left alone. */
  function RemoveDirs(fs: FileSystem, targets: set<string>): FileSystem {
    var roots := targets * fs.dirs;
    FileSystem(
      set x | x in fs.dirs && x !in roots && !UnderSome(x, roots),
      set x | x in fs.files && !UnderSome(x, roots))
  }

  /** A single `remove_dir_all(dir)` whose error is ignored: an existing
      directory goes with everything below it and nothing else; on a missing
      path or a regular file the call fails and nothing changes. */
  function RemoveDirAll(fs: FileSystem, dir: string): (r: FileSystem)
    ensures dir in fs.dirs ==> dir !in r.dirs
    ensures dir in fs.dirs ==> forall x :: x in fs.dirs ==> (x in r.dirs <==> x != dir && !Under(x, dir))
    ensures dir in fs.dirs ==> forall x :: x in fs.files ==> (x in r.files <==> !Under(x, dir))
    ensures r.dirs <= fs.dirs && r.files <= fs.files
    ensures dir !in fs.dirs ==> r == fs
  {
    var r := RemoveDirs(fs, {dir});
    assert forall x :: UnderSome(x, {dir} * fs.dirs) <==> dir in fs.dirs && Under(x, dir);
    r
  }

  /** Removing one batch of directories and then another is the same as
      removing both batches at once; in particular the order in which a
      loop issues `remove_dir_all` calls does not matter. */
  lemma RemoveDirsCompose(fs: FileSystem, first: set<string>, second: set<string>)
    ensures RemoveDirs(RemoveDirs(fs, first), second) == RemoveDirs(fs, first + second)
  {
    var fs1 := RemoveDirs(fs, first);
    var r1 := first * fs.dirs;
    var r2 := second * fs1.dirs;
    var r := (first + second) * fs.dirs;
    var lhs := RemoveDirs(fs1, second);
    var rhs := RemoveDirs(fs, first + second);
    // Whatever is below a root of the combined batch is below a root of one
    // of the two passes.
    forall x | UnderSome(x, r)
      ensures UnderSome(x, r1) || UnderSome(x, r2)
    {
      var t :| t in r && Under(x, t);
      if t !in r1 && t !in fs1.dirs {
        var q :| q in r1 && Under(t, q);
        UnderTransitive(x, t, q);
      }
    }
    forall x | x in lhs.dirs ensures x in rhs.dirs { }
    forall x | x in rhs.dirs ensures x in lhs.dirs { }
    forall x | x in lhs.files ensures x in rhs.files { }
    forall x | x in rhs.files ensures x in lhs.files { }
  }

  /** Nothing outside the targets and what lies below them changes. */
  lemma RemoveDirsFrame(fs: FileSystem, targets: set<string>, x: string)
    requires x !in targets && forall r :: r in targets ==> !Under(x, r)
    ensures x in RemoveDirs(fs, targets).dirs <==> x in fs.dirs
    ensures x in RemoveDirs(fs, targets).files <==> x in fs.files
  {
  }

  /** Everything that disappears is a target directory or lies below one. */
  lemma RemoveDirsOnlyTargets(fs: FileSystem, targets: set<string>, x: string)
    requires (x in fs.dirs && x !in RemoveDirs(fs, targets).dirs)
          || (x in fs.files && x !in RemoveDirs(fs, targets).files)
    ensures exists r :: r in targets && r in fs.dirs && (x == r || Under(x, r))
  {
  }

  /** Every target directory is gone afterwards, with everything below it. */
  lemma RemoveDirsRemoves(fs: FileSystem, targets: set<string>, r: string)
    requires r in targets && r in fs.dirs
    ensures r !in RemoveDirs(fs, targets).dirs
    ensures forall x :: Under(x, r) ==> x !in RemoveDirs(fs, targets).dirs && x !in RemoveDirs(fs, targets).files
  {
  }
}
