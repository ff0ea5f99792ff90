/** The second multer configuration (generic uploads by faculty id): the
    destination looked up through the faculty's department, the stored name
    that keeps the original base name, the filter, the limit, and `deleteFile`,
    which prunes empty folders after a successful unlink. */
module UploadRoutes {
  import opened Common
  import opened Disk
  import UploadMiddleware
  import CleanupUtils

  const FacultyNotFound: string := "Faculty not found"

  const JpegType: string := "image/jpeg"
  const PngType: string := "image/png"

  const MaxFileSize: nat := 5 * 1024 * 1024

  datatype DestinationResult = Directory(path: Path) | Failure(message: string)

  /** The directory for a faculty id and subject id: `uploads/<department>/<facultyId>/<subjectId>`,
      the department coming from the faculty record (`faculties` maps faculty ids to departments). */
  function DestinationPath(faculties: map<string, string>, facultyId: string, subjectId: string): (r: DestinationResult)
    ensures facultyId !in faculties <==> r == Failure(FacultyNotFound)
    ensures facultyId in faculties ==>
      r == Directory(["uploads"] + JoinPath([faculties[facultyId], facultyId, subjectId]))
  {
    if facultyId !in faculties then Failure(FacultyNotFound)
    else Directory(["uploads"] + JoinPath([faculties[facultyId], facultyId, subjectId]))
  }

  /** `destination`: looks the faculty up, then creates the directory recursively. */
  method Destination(fs: FileSystem, faculties: map<string, string>, facultyId: string, subjectId: string)
    returns (r: DestinationResult)
    requires fs.Valid()
    modifies fs
    ensures fs.Valid() && fs.files == old(fs.files)
    ensures facultyId !in faculties ==> r == Failure(FacultyNotFound) && fs.dirs == old(fs.dirs)
    ensures r.Directory? ==> r == DestinationPath(faculties, facultyId, subjectId)
                             && fs.dirs == old(fs.dirs) + Prefixes(r.path)
    ensures r.Failure? ==> fs.dirs == old(fs.dirs)
    ensures facultyId in faculties ==>
      (r.Directory? <==> Prefixes(DestinationPath(faculties, facultyId, subjectId).path) !! old(fs.files))
  {
    r := DestinationPath(faculties, facultyId, subjectId);
    if r.Directory? {
      var ok := fs.MkdirRecursive(r.path);
      if !ok {
        r := Failure("EEXIST");
      }
    }
  }

  /** `path.basename(name, ext)` with `ext` the name's own extension: the name without it. */
  function BaseName(originalname: string): (b: string)
    ensures b + UploadMiddleware.ExtName(originalname) == originalname
  {
    UploadMiddleware.ExtNameShape(originalname);
    originalname[..|originalname| - |UploadMiddleware.ExtName(originalname)|]
  }

  /** `filename`: the original base name, the unique suffix and the original extension. */
  function StoredName(originalname: string, now: nat, random: nat): string
  {
    BaseName(originalname) + "-" + UploadMiddleware.UniqueSuffix(now, random) + UploadMiddleware.ExtName(originalname)
  }

  /** The stored name starts with the original base name and keeps the original extension. */
  lemma StoredNameKeepsBaseAndExtension(originalname: string, now: nat, random: nat)
    requires originalname != ".."
    ensures var s := StoredName(originalname, now, random);
      && s[..|BaseName(originalname)|] == BaseName(originalname)
      && UploadMiddleware.ExtName(s) == UploadMiddleware.ExtName(originalname)
  {
    var base := BaseName(originalname);
    var ext := UploadMiddleware.ExtName(originalname);
    var suffix := UploadMiddleware.UniqueSuffix(now, random);
    var prefix := base + "-" + suffix;
    var s := prefix + ext;
    assert StoredName(originalname, now, random) == s;
    assert s[..|base|] == base;
    UploadMiddleware.ExtNameShape(originalname);
    assert forall i :: |base| < i < |prefix| ==> prefix[i] == suffix[i - |base| - 1];
    if ext == "" {
      assert s == prefix;
      match UploadMiddleware.LastDot(originalname)
      case None =>
        assert forall i :: 0 <= i < |prefix| ==> prefix[i] != '.';
      case Some(j) =>
        assert j == 0;
        assert base == originalname;
        assert UploadMiddleware.LastDot(s) == Some(0) by {
          assert forall i :: 0 < i < |s| ==> s[i] != '.';
        }
    } else {
      var j := |prefix|;
      assert s[j] == '.';
      assert forall i :: j < i < |s| ==> s[i] == ext[i - j];
      assert s[j..] == ext;
      var d := UploadMiddleware.LastDot(s);
      assert d.Some? && d.value >= j;
      assert d.value == j;
    }
  }

  /** `fileFilter`: exactly PDF, JPEG and PNG pass. */
  predicate FileFilter(mimetype: string)
  {
    mimetype in [UploadMiddleware.PdfType, JpegType, PngType]
  }

  predicate WithinLimit(size: nat)
  {
    size <= MaxFileSize
  }

  /** `deleteFile(filePath)`: unlinks the file and then prunes empty folders
      under `uploads`; any failure is swallowed, and nothing is pruned when
      the unlink fails. */
  method DeleteFile(fs: FileSystem, filePath: Path)
    requires fs.Valid()
    modifies fs
    ensures fs.Valid()
    ensures fs.files == old(fs.files) - {filePath}
    ensures filePath !in old(fs.files) ==> fs.dirs == old(fs.dirs)
    ensures filePath in old(fs.files) && ["uploads"] in old(fs.dirs) ==>
      fs.dirs == old(fs.dirs) - CleanupUtils.Doomed(old(fs.dirs), fs.files, ["uploads"])
    ensures ["uploads"] !in old(fs.dirs) ==> fs.dirs == old(fs.dirs)
  {
    var unlinked := fs.Unlink(filePath);
    if !unlinked {
      return;
    }
    var _ := CleanupUtils.CleanEmptyFolders(fs, ["uploads"]);
  }
}
