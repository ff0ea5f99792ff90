/** The file system the server reads and writes through `fs`: a set of
    directory paths and a set of regular-file paths, relative to the server
    directory. Only existence is modelled, not file contents. */
module Disk {
  import opened Common

  /** The parent directory of a path with at least two segments. */
  function Parent(p: Path): Path
    requires |p| > 0
  {
    p[..|p| - 1]
  }

  /** Every directory or file sits inside directories that exist. */
  ghost predicate ParentsAreDirs(dirs: set<Path>, files: set<Path>)
  {
    forall p, k :: p in dirs + files && 0 < k < |p| ==> p[..k] in dirs
  }

  /** A path below `dir` (or `dir` itself when `strict` is false). */
  predicate Below(dir: Path, p: Path, strict: bool)
  {
    |dir| <= |p| && p[..|dir|] == dir && (strict ==> |dir| < |p|)
  }

  class FileSystem {
    var dirs: set<Path>
    var files: set<Path>

    ghost predicate Valid()
      reads this
    {
      && dirs !! files
      && [] !in dirs && [] !in files
      && ParentsAreDirs(dirs, files)
    }

    constructor (dirs0: set<Path>, files0: set<Path>)
      requires dirs0 !! files0 && [] !in dirs0 + files0 && ParentsAreDirs(dirs0, files0)
      ensures Valid() && dirs == dirs0 && files == files0
    {
      dirs, files := dirs0, files0;
    }

    /** `fs.existsSync(p)`: true for a directory as well as for a file. */
    function Exists(p: Path): (b: bool)
      reads this
      ensures b <==> p in dirs || p in files
    {
      p in dirs || p in files
    }

    /** `fs.mkdirSync(p, { recursive: true })`: creates every missing
        directory on the way to `p`; fails, changing nothing, when a file
        stands on that way. */
    method MkdirRecursive(p: Path) returns (ok: bool)
      requires Valid() && p != []
      modifies this
      ensures Valid() && files == old(files)
      ensures ok <==> Prefixes(p) !! old(files)
      ensures ok ==> dirs == old(dirs) + Prefixes(p)
      ensures !ok ==> dirs == old(dirs)
    {
      ok := Prefixes(p) !! files;
      if ok {
        forall q, k | q in dirs + Prefixes(p) + files && 0 < k < |q|
          ensures q[..k] in dirs + Prefixes(p)
        {
          if q in Prefixes(p) {
            assert q[..k] == p[..k];
          }
        }
        dirs := dirs + Prefixes(p);
      }
    }

    /** `fs.unlinkSync(p)`: removes a regular file; any other path is an error. */
    method Unlink(p: Path) returns (ok: bool)
      requires Valid()
      modifies this
      ensures Valid() && dirs == old(dirs)
      ensures ok <==> p in old(files)
      ensures files == old(files) - {p}
    {
      ok := p in files;
      files := files - {p};
    }

    /** `fs.writeFile(p, ...)`: creates or overwrites a file in an existing directory. */
    method WriteFile(p: Path) returns (ok: bool)
      requires Valid()
      modifies this
      ensures Valid() && dirs == old(dirs)
      ensures ok <==> p != [] && p !in old(dirs) && (|p| == 1 || Parent(p) in old(dirs))
      ensures files == if ok then old(files) + {p} else old(files)
    {
      ok := p != [] && p !in dirs && (|p| == 1 || Parent(p) in dirs);
      if ok {
        forall q, k | q in dirs + files + {p} && 0 < k < |q|
          ensures q[..k] in dirs
        {
          if q == p && k < |p| - 1 {
            assert q[..k] == Parent(p)[..k];
          }
        }
        files := files + {p};
      }
    }

    /** `fs.rename(from, to)` of a file: `to` is replaced when it is a file. */
    method Rename(from: Path, to: Path) returns (ok: bool)
      requires Valid()
      modifies this
      ensures Valid() && dirs == old(dirs)
      ensures ok <==> from in old(files) && to != [] && to !in old(dirs) && (|to| == 1 || Parent(to) in old(dirs))
      ensures files == if ok then old(files) - {from} + {to} else old(files)
    {
      ok := from in files && to != [] && to !in dirs && (|to| == 1 || Parent(to) in dirs);
      if ok {
        forall q, k | q in dirs + (files - {from} + {to}) && 0 < k < |q|
          ensures q[..k] in dirs
        {
          if q == to && k < |to| - 1 {
            assert q[..k] == Parent(to)[..k];
          }
        }
        files := files - {from} + {to};
      }
    }

    /** `fs.rmdir(p)`: removes a directory that has no entries. */
    method Rmdir(p: Path) returns (ok: bool)
      requires Valid()
      modifies this
      ensures Valid() && files == old(files)
      ensures ok <==> p in old(dirs) && old(Entries(p)) == {}
      ensures dirs == if ok then old(dirs) - {p} else old(dirs)
    {
      ok := p in dirs && Entries(p) == {};
      if ok {
        forall q, k | q in (dirs - {p}) + files && 0 < k < |q|
          ensures q[..k] in dirs - {p}
        {
          // the entry of q[..k] on the way to q exists, so q[..k] is not the empty p
          var c := q[..k + 1];
          if k + 1 == |q| {
            assert c == q;
          }
          assert c in dirs + files && c == q[..k] + [q[k]];
        }
        dirs := dirs - {p};
      }
    }

    /** The names listed by `fs.readdir(dir)`. */
    function Entries(dir: Path): (names: set<string>)
      reads this
      ensures forall x :: x in names <==> dir + [x] in dirs || dir + [x] in files
    {
      var names := set q | q in dirs + files && |q| == |dir| + 1 && q[..|dir|] == dir :: q[|dir|];
      assert forall x :: (dir + [x])[..|dir|] == dir && (dir + [x])[|dir|] == x;
      assert forall q :: |q| == |dir| + 1 && q[..|dir|] == dir ==> q == dir + [q[|dir|]];
      names
    }
  }
}
