/** `cleanEmptyFolders`: a depth-first walk that removes every directory
    below a folder which, once its own subdirectories are pruned, has no
    entries; it reports whether the folder itself ended up empty. */
module CleanupUtils {
  import opened Common
  import opened Disk

  /** Some regular file lies strictly below `d`, at any depth. */
  ghost predicate HasFileBelow(files: set<Path>, d: Path)
  {
    exists f :: f in files && Below(d, f, true)
  }

  /** The directories strictly below `folder` that hold no file at any depth:
      exactly the ones the walk removes. */
  ghost function Doomed(dirs: set<Path>, files: set<Path>, folder: Path): set<Path>
  {
    set d | d in dirs && Below(folder, d, true) && !HasFileBelow(files, d)
  }

  /** The part of `Doomed` reached through the given entries of `folder`. */
  ghost function DoomedUnder(dirs: set<Path>, files: set<Path>, folder: Path, names: set<string>): set<Path>
  {
    set d | d in dirs && Below(folder, d, true) && d[|folder|] in names && !HasFileBelow(files, d)
  }

  /** The result of `cleanEmptyFolders(folder)`: `None` when `fs.stat` rejects
      because nothing exists at `folder`, `Some(false)` for a file, and for a
      directory `Some(b)` where `b` tells whether it has no entries left. */
  method CleanEmptyFolders(fs: FileSystem, folder: Path) returns (r: Option<bool>)
    requires fs.Valid()
    modifies fs
    decreases set d | d in fs.dirs && Below(folder, d, true)
    ensures fs.Valid() && fs.files == old(fs.files)
    ensures folder !in old(fs.dirs) + old(fs.files) ==> r == None && fs.dirs == old(fs.dirs)
    ensures folder in old(fs.files) ==> r == Some(false) && fs.dirs == old(fs.dirs)
    ensures folder in old(fs.dirs) ==>
      && fs.dirs == old(fs.dirs) - Doomed(old(fs.dirs), fs.files, folder)
      && r == Some(fs.Entries(folder) == {})
      && r == Some(!HasFileBelow(fs.files, folder))
  {
    if folder !in fs.dirs && folder !in fs.files {
      return None;
    }
    if folder !in fs.dirs {
      return Some(false);
    }
    ghost var D0 := fs.dirs;
    ghost var F := fs.files;
    var names := fs.Entries(folder);
    var todo := names;
    while todo != {}
      invariant fs.Valid() && fs.files == F
      invariant todo <= names
      invariant fs.dirs == D0 - DoomedUnder(D0, F, folder, names - todo)
      decreases todo
    {
      var x :| x in todo;
      var child := folder + [x];
      ghost var done := names - todo;
      assert child[..|folder|] == folder && child[|folder|] == x;
      if child in fs.dirs {
        ghost var Dc := fs.dirs;
        ghost var outer := set d | d in D0 && Below(folder, d, true);
        ghost var inner := set d | d in Dc && Below(child, d, true);
        forall d | d in inner ensures d in outer {
          assert d[..|folder|] == child[..|folder|];
        }
        assert child in outer && child !in inner;
        assert inner < outer;
        var sub := CleanEmptyFolders(fs, child);
        if sub == Some(true) {
          var _ := fs.Rmdir(child);
        }
        PruneChildStep(D0, F, folder, done, x, Dc, fs.dirs);
      } else {
        FileChildStep(D0, F, folder, done, x);
      }
      todo := todo - {x};
    }
    AllEntriesCovered(D0, F, folder, names);
    EmptyIffNoFileBelow(D0, F, folder);
    r := Some(fs.Entries(folder) == {});
  }

  /** One iteration of the loop over a subdirectory: its recursive call and
      the `rmdir` that follows extend the pruned part by that subdirectory. */
  lemma PruneChildStep(D0: set<Path>, F: set<Path>, folder: Path, done: set<string>, x: string,
                       Dc: set<Path>, D2: set<Path>)
    requires Dc == D0 - DoomedUnder(D0, F, folder, done) && x !in done
    requires folder + [x] in Dc
    requires D2 == (Dc - Doomed(Dc, F, folder + [x])) - (if HasFileBelow(F, folder + [x]) then {} else {folder + [x]})
    ensures D2 == D0 - DoomedUnder(D0, F, folder, done + {x})
  {
    var child := folder + [x];
    forall d | d in D0
      ensures d in D2 <==> d !in DoomedUnder(D0, F, folder, done + {x})
    {
      if Below(child, d, false) {
        assert d[..|folder|] == child[..|folder|];
        assert Below(folder, d, true) && d[|folder|] == x;
        assert d !in DoomedUnder(D0, F, folder, done);
        assert d in Dc;
        if d == child {
          assert d in D2 <==> HasFileBelow(F, d);
        } else {
          assert Below(child, d, true);
          assert d in Doomed(Dc, F, child) <==> !HasFileBelow(F, d);
          assert d in D2 <==> HasFileBelow(F, d);
        }
        assert d in DoomedUnder(D0, F, folder, done + {x}) <==> !HasFileBelow(F, d);
      } else {
        assert d !in Doomed(Dc, F, child) && d != child;
        assert d in DoomedUnder(D0, F, folder, done + {x}) <==> d in DoomedUnder(D0, F, folder, done);
      }
    }
  }

  /** An entry that is a file: nothing below it is a directory, so the pruned
      part grows by nothing. */
  lemma FileChildStep(D0: set<Path>, F: set<Path>, folder: Path, done: set<string>, x: string)
    requires ParentsAreDirs(D0, F) && D0 !! F
    requires folder + [x] !in D0 - DoomedUnder(D0, F, folder, done) && x !in done
    requires folder + [x] in D0 + F
    ensures DoomedUnder(D0, F, folder, done + {x}) == DoomedUnder(D0, F, folder, done)
  {
    var child := folder + [x];
    assert child[..|folder|] == folder && child[|folder|] == x;
    assert child !in D0;
    forall d | d in D0 && Below(folder, d, true)
      ensures d[|folder|] != x
    {
      var c := d[..|folder| + 1];
      if |d| == |folder| + 1 {
        assert c == d;
      }
      assert c in D0 && c == folder + [d[|folder|]];
    }
  }

  /** Every directory strictly below `folder` is reached through one of the
      entries listed at the start. */
  lemma AllEntriesCovered(D0: set<Path>, F: set<Path>, folder: Path, names: set<string>)
    requires ParentsAreDirs(D0, F)
    requires forall x :: x in names <==> folder + [x] in D0 || folder + [x] in F
    ensures DoomedUnder(D0, F, folder, names) == Doomed(D0, F, folder)
  {
    forall d | d in Doomed(D0, F, folder)
      ensures d[|folder|] in names
    {
      var c := d[..|folder| + 1];
      if |d| == |folder| + 1 {
        assert c == d;
      }
      assert c in D0 + F;
      assert c == folder + [d[|folder|]];
    }
  }

  /** After pruning, `folder` has no entries exactly when no file lies below it. */
  lemma EmptyIffNoFileBelow(D0: set<Path>, F: set<Path>, folder: Path)
    requires ParentsAreDirs(D0, F)
    ensures (forall x :: folder + [x] !in D0 - Doomed(D0, F, folder) && folder + [x] !in F)
            <==> !HasFileBelow(F, folder)
  {
    if HasFileBelow(F, folder) {
      var f :| f in F && Below(folder, f, true);
      var c := f[..|folder| + 1];
      var x := f[|folder|];
      assert c == folder + [x];
      if |f| == |folder| + 1 {
        assert c == f;
      } else {
        assert c in D0;
        assert f[..|c|] == c;
        assert HasFileBelow(F, c);
        assert c !in Doomed(D0, F, folder);
      }
    } else {
      forall x
        ensures folder + [x] !in D0 - Doomed(D0, F, folder) && folder + [x] !in F
      {
        var c := folder + [x];
        assert c[..|folder|] == folder;
        if c in D0 {
          assert !HasFileBelow(F, c);
        }
      }
    }
  }

  /** After the walk no directory strictly below `folder` is empty: every
      remaining one still holds a file or a remaining directory. */
  lemma {:induction false} NoEmptyDirectoryRemains(D0: set<Path>, F: set<Path>, folder: Path, d: Path)
    requires ParentsAreDirs(D0, F) && D0 !! F
    requires d in D0 - Doomed(D0, F, folder) && Below(folder, d, true)
    ensures exists x :: d + [x] in D0 - Doomed(D0, F, folder) || d + [x] in F
  {
    var f :| f in F && Below(d, f, true);
    var x := f[|d|];
    var c := f[..|d| + 1];
    assert c == d + [x];
    if |f| == |d| + 1 {
      assert c == f;
    } else {
      assert c in D0;
      assert f[..|c|] == c;
      assert c[..|folder|] == folder;
      assert c !in Doomed(D0, F, folder);
    }
  }

  /** A directory below `folder` survives exactly when some file lies below it. */
  lemma DirectorySurvivesIffItHoldsAFile(D0: set<Path>, F: set<Path>, folder: Path, d: Path)
    requires d in D0 && Below(folder, d, true)
    ensures d in D0 - Doomed(D0, F, folder) <==> exists f :: f in F && Below(d, f, true)
  {
  }
}
