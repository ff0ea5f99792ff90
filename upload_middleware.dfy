/** The multer configuration used by the section upload route: where an
    incoming file is stored, under which generated name, which MIME types
    pass the filter and how large a file may be. */
module UploadMiddleware {
  import opened Common
  import opened Disk

  /** The teacher fields the destination reads from `req.teacher`. The
      authentication middleware sets `req.teacher` to a teacher document,
      and the teacher schema declares no `subjectId`, so it may be absent. */
  datatype TeacherInfo = TeacherInfo(department: string, facultyId: string, subjectId: Option<string>)

  /** `req.teacher` as the authentication middleware sets it: a teacher
      document, which never has a `subjectId`. */
  function AuthTeacher(department: string, facultyId: string): (t: TeacherInfo)
    ensures t.department == department && t.facultyId == facultyId && t.subjectId.None?
  {
    TeacherInfo(department, facultyId, None)
  }

  /** A file as multer receives it from the multipart body. */
  datatype IncomingFile = IncomingFile(fieldname: string, originalname: string, mimetype: string, size: nat)

  /** A file as multer hands it to the route handler (`req.file`). */
  datatype StoredFile = StoredFile(destination: Path, filename: string, mimetype: string)

  datatype UploadError = WrongType | TooLarge | DestinationFailed

  const DefaultAcademicYear: string := "2024-2025"

  const PdfType: string := "application/pdf"
  const MsWordType: string := "application/msword"
  const DocxType: string := "application/vnd.openxmlformats-officedocument.wordprocessingml.document"

  const MaxFileSize: nat := 10 * 1024 * 1024

  /** `req.body.academicYear || '2024-2025'` */
  function AcademicYearOf(bodyYear: Option<string>): (y: string)
    ensures y != ""
    ensures bodyYear.Some? && bodyYear.value != "" ==> y == bodyYear.value
    ensures !(bodyYear.Some? && bodyYear.value != "") ==> y == DefaultAcademicYear
  {
    if bodyYear.Some? && bodyYear.value != "" then bodyYear.value else DefaultAcademicYear
  }

  /** The directory `destination` stores into; `None` when `path.join` throws
      on the teacher's missing `subjectId`. */
  function DestinationPath(teacher: Option<TeacherInfo>, bodyYear: Option<string>): (r: Option<Path>)
    ensures teacher.None? ==> r == Some(["uploads", AcademicYearOf(bodyYear), "temp"])
    ensures teacher.Some? && teacher.value.subjectId.None? ==> r.None?
    ensures teacher.Some? && teacher.value.subjectId.Some? ==>
      r == Some(["uploads"] + JoinPath([AcademicYearOf(bodyYear), teacher.value.department,
                                        teacher.value.facultyId, teacher.value.subjectId.value]))
    ensures r.Some? ==> |r.value| >= 2 && r.value[..2] == ["uploads", AcademicYearOf(bodyYear)]
  {
    var year := AcademicYearOf(bodyYear);
    match teacher
    case None => Some(["uploads", year, "temp"])
    case Some(t) =>
      if t.subjectId.None? then None
      else Some(["uploads"] + JoinPath([year, t.department, t.facultyId, t.subjectId.value]))
  }

  /** `destination`: resolves the directory and creates it recursively. */
  method Destination(fs: FileSystem, teacher: Option<TeacherInfo>, bodyYear: Option<string>) returns (r: Option<Path>)
    requires fs.Valid()
    modifies fs
    ensures fs.Valid() && fs.files == old(fs.files)
    ensures r.Some? ==> r == DestinationPath(teacher, bodyYear) && fs.dirs == old(fs.dirs) + Prefixes(r.value)
    ensures r.None? ==> fs.dirs == old(fs.dirs)
    ensures DestinationPath(teacher, bodyYear).Some? && Prefixes(DestinationPath(teacher, bodyYear).value) !! old(fs.files)
            ==> r.Some?
  {
    var dest := DestinationPath(teacher, bodyYear);
    if dest.None? {
      return None;
    }
    var ok := fs.MkdirRecursive(dest.value);
    r := if ok then dest else None;
  }

  /** Index of the last '.' of a name. */
  function LastDot(s: string): (r: Option<nat>)
    ensures r.Some? ==> r.value < |s| && s[r.value] == '.' && forall i :: r.value < i < |s| ==> s[i] != '.'
    ensures r.None? ==> forall i :: 0 <= i < |s| ==> s[i] != '.'
  {
    if s == [] then None
    else if s[|s| - 1] == '.' then Some(|s| - 1)
    else LastDot(s[..|s| - 1])
  }

  /** `path.extname(name)` of a name without '/': from the last '.' to the end,
      empty when there is no '.', when the only leading part is the dot itself
      (".bashrc") and for "..". */
  function ExtName(name: string): string
  {
    match LastDot(name)
    case None => ""
    case Some(j) => if j == 0 || name == ".." then "" else name[j..]
  }

  /** The extension is empty or a '.' followed by no other '.', and it ends the name. */
  lemma ExtNameShape(name: string)
    ensures var e := ExtName(name);
      && |e| <= |name| && e == name[|name| - |e|..]
      && (e != "" ==> e[0] == '.' && |e| < |name| && forall i :: 0 < i < |e| ==> e[i] != '.')
  {
  }

  /** Unique suffix `Date.now() + '-' + Math.round(Math.random() * 1E9)`, both numbers given. */
  function UniqueSuffix(now: nat, random: nat): (r: string)
    ensures forall i :: 0 <= i < |r| ==> r[i] != '.'
  {
    Decimal(now) + "-" + Decimal(random)
  }

  /** `filename`: the field name, the suffix and the original extension. */
  function StoredName(fieldname: string, originalname: string, now: nat, random: nat): string
  {
    fieldname + "-" + UniqueSuffix(now, random) + ExtName(originalname)
  }

  /** A name whose prefix has no '.' and is non-empty has exactly the extension appended to it. */
  lemma {:induction false} ExtNameOfAppended(prefix: string, ext: string, name: string)
    requires prefix != "" && forall i :: 0 <= i < |prefix| ==> prefix[i] != '.'
    requires ext == ExtName(name)
    ensures ExtName(prefix + ext) == ext
  {
    ExtNameShape(name);
    var s := prefix + ext;
    if ext == "" {
      assert s == prefix;
    } else {
      assert s[|prefix|] == '.';
      assert forall i :: |prefix| < i < |s| ==> s[i] == ext[i - |prefix|];
      assert s[|prefix|..] == ext;
      var j := LastDot(s);
      assert j.Some? && j.value >= |prefix|;
      assert j.value == |prefix|;
      assert s[0] != '.';
    }
  }

  /** The stored name keeps the original extension (the field name, 'file', has no '.'). */
  lemma StoredNameKeepsExtension(fieldname: string, originalname: string, now: nat, random: nat)
    requires forall i :: 0 <= i < |fieldname| ==> fieldname[i] != '.'
    ensures ExtName(StoredName(fieldname, originalname, now, random)) == ExtName(originalname)
  {
    var prefix := fieldname + "-" + UniqueSuffix(now, random);
    assert forall i :: 0 <= i < |prefix| ==> prefix[i] != '.' by {
      assert forall i :: |fieldname| < i < |prefix| ==> prefix[i] == UniqueSuffix(now, random)[i - |fieldname| - 1];
    }
    assert StoredName(fieldname, originalname, now, random) == prefix + ExtName(originalname);
    ExtNameOfAppended(prefix, ExtName(originalname), originalname);
  }

  /** `fileFilter`: exactly PDF, .doc and .docx pass. */
  predicate FileFilter(mimetype: string)
  {
    mimetype in [PdfType, MsWordType, DocxType]
  }

  /** multer's `limits.fileSize`: a file is rejected once it is larger than the limit. */
  predicate WithinLimit(size: nat)
  {
    size <= MaxFileSize
  }

  /** The destination can be created: it resolves and no directory on its way is a file. */
  predicate Creatable(files: set<Path>, teacher: Option<TeacherInfo>, bodyYear: Option<string>)
  {
    var dest := DestinationPath(teacher, bodyYear);
    dest.Some? && Prefixes(dest.value) !! files
  }

  /** The directories after multer has seen a file: the destination is
      created once the file passed the filter, whatever happens next. */
  function DirsAfter(dirs: set<Path>, files: set<Path>, teacher: Option<TeacherInfo>, bodyYear: Option<string>,
                     mimetype: string): (r: set<Path>)
    ensures dirs <= r
  {
    if FileFilter(mimetype) && Creatable(files, teacher, bodyYear)
    then dirs + Prefixes(DestinationPath(teacher, bodyYear).value)
    else dirs
  }

  /** multer stores a file exactly when it has an allowed type, is within
      the limit, its destination can be created and its target path is not
      a directory. */
  predicate Accepts(files: set<Path>, dirs: set<Path>, teacher: Option<TeacherInfo>, bodyYear: Option<string>,
                    file: IncomingFile, now: nat, random: nat)
  {
    && FileFilter(file.mimetype) && WithinLimit(file.size) && Creatable(files, teacher, bodyYear)
    && DestinationPath(teacher, bodyYear).value + [StoredName(file.fieldname, file.originalname, now, random)] !in dirs
  }

  /** multer with this configuration: the filter runs first, then the
      destination is created and the file written; a file over the limit is
      removed again and reported as too large. */
  method ReceiveFile(fs: FileSystem, teacher: Option<TeacherInfo>, bodyYear: Option<string>,
                     file: IncomingFile, now: nat, random: nat) returns (r: Option<StoredFile>, err: Option<UploadError>)
    requires fs.Valid()
    modifies fs
    ensures fs.Valid()
    ensures r.Some? <==> err.None?
    ensures !FileFilter(file.mimetype) ==> err == Some(WrongType) && fs.dirs == old(fs.dirs) && fs.files == old(fs.files)
    ensures r.Some? ==>
      && FileFilter(file.mimetype) && WithinLimit(file.size)
      && Some(r.value.destination) == DestinationPath(teacher, bodyYear)
      && r.value.filename == StoredName(file.fieldname, file.originalname, now, random)
      && r.value.mimetype == file.mimetype
      && fs.dirs == old(fs.dirs) + Prefixes(r.value.destination)
      && fs.files == old(fs.files) + {r.value.destination + [r.value.filename]}
    ensures err.Some? ==> fs.files == old(fs.files)
    ensures fs.dirs == DirsAfter(old(fs.dirs), old(fs.files), teacher, bodyYear, file.mimetype)
    ensures r.Some? <==> Accepts(old(fs.files), old(fs.dirs), teacher, bodyYear, file, now, random)
    ensures err == Some(WrongType) <==> !FileFilter(file.mimetype)
    ensures err == Some(TooLarge) <==>
      FileFilter(file.mimetype) && Creatable(old(fs.files), teacher, bodyYear) && !WithinLimit(file.size)
  {
    if !FileFilter(file.mimetype) {
      return None, Some(WrongType);
    }
    r, err := Store(fs, teacher, bodyYear, file, now, random);
  }

  /** The disk storage for a file the filter let through: the destination
      is created, then the file is written under its generated name. */
  method Store(fs: FileSystem, teacher: Option<TeacherInfo>, bodyYear: Option<string>,
               file: IncomingFile, now: nat, random: nat) returns (r: Option<StoredFile>, err: Option<UploadError>)
    requires fs.Valid()
    modifies fs
    ensures fs.Valid()
    ensures r.Some? <==> err.None?
    ensures r.Some? ==>
      && WithinLimit(file.size)
      && Some(r.value.destination) == DestinationPath(teacher, bodyYear)
      && r.value.filename == StoredName(file.fieldname, file.originalname, now, random)
      && r.value.mimetype == file.mimetype
      && fs.dirs == old(fs.dirs) + Prefixes(r.value.destination)
      && fs.files == old(fs.files) + {r.value.destination + [r.value.filename]}
    ensures err.Some? ==> fs.files == old(fs.files)
    ensures fs.dirs == if Creatable(old(fs.files), teacher, bodyYear)
                       then old(fs.dirs) + Prefixes(DestinationPath(teacher, bodyYear).value) else old(fs.dirs)
    ensures r.Some? <==>
      && WithinLimit(file.size) && Creatable(old(fs.files), teacher, bodyYear)
      && DestinationPath(teacher, bodyYear).value + [StoredName(file.fieldname, file.originalname, now, random)] !in old(fs.dirs)
    ensures err == Some(TooLarge) <==> Creatable(old(fs.files), teacher, bodyYear) && !WithinLimit(file.size)
    ensures err != Some(WrongType)
  {
    var dest := Destination(fs, teacher, bodyYear);
    if dest.None? {
      return None, Some(DestinationFailed);
    }
    var name := StoredName(file.fieldname, file.originalname, now, random);
    assert dest.value + [name] !in Prefixes(dest.value);
    err := WriteStored(fs, dest.value, name, file.size);
    r := if err.None? then Some(StoredFile(dest.value, name, file.mimetype)) else None;
  }

  /** The disk storage writing the stream into the created destination: a
      file over the limit is removed again, and the write fails when the
      target is a directory. */
  method WriteStored(fs: FileSystem, dest: Path, name: string, size: nat) returns (err: Option<UploadError>)
    requires fs.Valid() && dest in fs.dirs
    modifies fs
    ensures fs.Valid() && fs.dirs == old(fs.dirs)
    ensures !WithinLimit(size) ==> err == Some(TooLarge)
    ensures WithinLimit(size) ==> (err.None? <==> dest + [name] !in old(fs.dirs))
    ensures WithinLimit(size) && err.Some? ==> err == Some(DestinationFailed)
    ensures fs.files == if err.None? then old(fs.files) + {dest + [name]} else old(fs.files)
  {
    if !WithinLimit(size) {
      return Some(TooLarge);
    }
    assert Parent(dest + [name]) == dest;
    var written := fs.WriteFile(dest + [name]);
    err := if written then None else Some(DestinationFailed);
  }

  /** As written, a signed-in teacher's upload is never stored: the
      destination joins a `subjectId` that no teacher document has, so it
      never resolves, whatever the file. */
  lemma SignedInUploadNeverStored(files: set<Path>, dirs: set<Path>, department: string, facultyId: string,
                                  bodyYear: Option<string>, file: IncomingFile, now: nat, random: nat)
    ensures DestinationPath(Some(AuthTeacher(department, facultyId)), bodyYear).None?
    ensures !Accepts(files, dirs, Some(AuthTeacher(department, facultyId)), bodyYear, file, now, random)
  {
  }
}
