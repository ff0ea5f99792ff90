/** The one-off script that seeds the folder tree
    `uploads/<academic year>/<department>/<faculty id>/<subject>`. */
module SetupUploads {
  import opened Common
  import opened Disk
  import UploadMiddleware

  /** One entry of a department's faculty table: a faculty id and its subjects. */
  datatype FacultyFolders = FacultyFolders(facultyId: string, subjects: seq<string>)

  const AcademicYear: string := "2024-2025"

  const Departments: seq<string> :=
    ["CSE", "AIDS", "AIML", "IT", "CYBER_SECURITY", "ECE", "EEE", "CIVIL", "MECH"]

  const FacultyStructure: map<string, seq<FacultyFolders>> := map[
    "CSE" := [FacultyFolders("FacultyID101", ["DS", "OS"])],
    "AIDS" := [FacultyFolders("FacultyID102", ["BDA", "IOT"])],
    "AIML" := [FacultyFolders("FacultyID123", ["ML", "DL"])],
    "IT" := [FacultyFolders("FacultyID104", ["SE", "DBMS"])],
    "CYBER_SECURITY" := [FacultyFolders("FacultyID105", ["NETWORKS", "ETHICAL_HACKING"])],
    "ECE" := [FacultyFolders("FacultyID106", ["DSP", "VLSI"])],
    "EEE" := [FacultyFolders("FacultyID107", ["POWER_SYSTEMS", "EMF"])],
    "CIVIL" := [FacultyFolders("FacultyID108", ["STRUCTURES", "SURVEYING"])],
    "MECH" := [FacultyFolders("FacultyID109", ["THERMODYNAMICS", "CAD"])]
  ]

  /** The subject folders below one faculty folder. */
  ghost function SubjectDirs(facultyDir: Path, subjects: seq<string>): set<Path>
  {
    if subjects == [] then {}
    else SubjectDirs(facultyDir, subjects[..|subjects| - 1]) + {facultyDir + [subjects[|subjects| - 1]]}
  }

  /** The faculty folders, and their subject folders, below one department folder. */
  ghost function FacultyDirs(deptDir: Path, faculties: seq<FacultyFolders>): set<Path>
  {
    if faculties == [] then {}
    else
      var last := faculties[|faculties| - 1];
      FacultyDirs(deptDir, faculties[..|faculties| - 1]) + {deptDir + [last.facultyId]}
        + SubjectDirs(deptDir + [last.facultyId], last.subjects)
  }

  /** The department folders and everything planned below them. */
  ghost function DepartmentDirs(yearDir: Path, departments: seq<string>, structure: map<string, seq<FacultyFolders>>): set<Path>
  {
    if departments == [] then {}
    else
      var d := departments[|departments| - 1];
      DepartmentDirs(yearDir, departments[..|departments| - 1], structure) + {yearDir + [d]}
        + (if d in structure then FacultyDirs(yearDir + [d], structure[d]) else {})
  }

  /** Every folder the script makes sure of. */
  ghost function Planned(year: string, departments: seq<string>, structure: map<string, seq<FacultyFolders>>): set<Path>
  {
    {["uploads"], ["uploads", year]} + DepartmentDirs(["uploads", year], departments, structure)
  }

  lemma PrefixesSnoc(p: Path, x: string)
    ensures Prefixes(p + [x]) == Prefixes(p) + {p + [x]}
  {
    forall q | q in Prefixes(p + [x]) && q != p + [x]
      ensures q in Prefixes(p)
    {
      assert |q| <= |p|;
    }
  }

  lemma FacultyDirsSnoc(d: Path, fs: seq<FacultyFolders>, k: nat)
    requires k < |fs|
    ensures FacultyDirs(d, fs[..k + 1]) ==
      FacultyDirs(d, fs[..k]) + {d + [fs[k].facultyId]} + SubjectDirs(d + [fs[k].facultyId], fs[k].subjects)
  {
    assert fs[..k + 1][..k] == fs[..k];
  }

  lemma DepartmentDirsSnoc(y: Path, ds: seq<string>, st: map<string, seq<FacultyFolders>>, i: nat)
    requires i < |ds|
    ensures DepartmentDirs(y, ds[..i + 1], st) ==
      DepartmentDirs(y, ds[..i], st) + {y + [ds[i]]} + (if ds[i] in st then FacultyDirs(y + [ds[i]], st[ds[i]]) else {})
  {
    assert ds[..i + 1][..i] == ds[..i];
  }

  lemma {:induction false} SubjectDirsGrow(f: Path, s: seq<string>, i: nat)
    requires i <= |s|
    ensures SubjectDirs(f, s[..i]) <= SubjectDirs(f, s)
    decreases |s|
  {
    if i < |s| {
      assert s[..|s| - 1][..i] == s[..i];
      SubjectDirsGrow(f, s[..|s| - 1], i);
    } else {
      assert s[..i] == s;
    }
  }

  lemma {:induction false} FacultyDirsGrow(d: Path, fs: seq<FacultyFolders>, i: nat)
    requires i <= |fs|
    ensures FacultyDirs(d, fs[..i]) <= FacultyDirs(d, fs)
    decreases |fs|
  {
    if i < |fs| {
      assert fs[..|fs| - 1][..i] == fs[..i];
      FacultyDirsGrow(d, fs[..|fs| - 1], i);
    } else {
      assert fs[..i] == fs;
    }
  }

  lemma {:induction false} DepartmentDirsGrow(y: Path, ds: seq<string>, st: map<string, seq<FacultyFolders>>, i: nat)
    requires i <= |ds|
    ensures DepartmentDirs(y, ds[..i], st) <= DepartmentDirs(y, ds, st)
    decreases |ds|
  {
    if i < |ds| {
      assert ds[..|ds| - 1][..i] == ds[..i];
      DepartmentDirsGrow(y, ds[..|ds| - 1], st, i);
    } else {
      assert ds[..i] == ds;
    }
  }

  /** `if (!fs.existsSync(dir)) fs.mkdirSync(dir, { recursive: true })`:
      an existing entry, directory or file, is left alone. */
  method EnsureDir(fs: FileSystem, p: Path) returns (ok: bool)
    requires fs.Valid() && p != []
    modifies fs
    ensures fs.Valid() && fs.files == old(fs.files)
    ensures ok ==> fs.dirs == old(fs.dirs) + (Prefixes(p) - old(fs.files))
    ensures !ok ==> fs.dirs == old(fs.dirs)
    ensures (Prefixes(p) - {p}) !! old(fs.files) ==> ok
  {
    if fs.Exists(p) {
      assert forall q :: q in Prefixes(p) && q != p ==> q in fs.dirs by {
        forall q | q in Prefixes(p) && q != p
          ensures q in fs.dirs
        {
          assert p in fs.dirs + fs.files && 0 < |q| < |p| && q == p[..|q|];
        }
      }
      return true;
    }
    ok := fs.MkdirRecursive(p);
  }

  /** The innermost loop: one folder per subject of a faculty. */
  method CreateSubjectFolders(fs: FileSystem, facultyDir: Path, subjects: seq<string>) returns (ok: bool)
    requires fs.Valid() && facultyDir != [] && facultyDir in fs.dirs + fs.files
    modifies fs
    ensures fs.Valid() && fs.files == old(fs.files)
    ensures facultyDir !in old(fs.files) ==> ok
    ensures ok ==> fs.dirs == old(fs.dirs) + (SubjectDirs(facultyDir, subjects) - old(fs.files))
    ensures old(fs.dirs) <= fs.dirs <= old(fs.dirs) + SubjectDirs(facultyDir, subjects)
  {
    ghost var D0, F := fs.dirs, fs.files;
    assert forall q :: q in Prefixes(facultyDir) && q != facultyDir ==> q in D0;
    ok := true;
    for j := 0 to |subjects|
      invariant fs.Valid() && fs.files == F && facultyDir in fs.dirs + F
      invariant fs.dirs == D0 + (SubjectDirs(facultyDir, subjects[..j]) - F)
      invariant facultyDir !in F ==> ok
      invariant ok
    {
      SubjectDirsGrow(facultyDir, subjects, j);
      assert subjects[..j + 1][..j] == subjects[..j];
      var subjectDir := facultyDir + [subjects[j]];
      PrefixesSnoc(facultyDir, subjects[j]);
      assert forall q :: q in Prefixes(facultyDir) && q != facultyDir ==> q in fs.dirs;
      ok := EnsureDir(fs, subjectDir);
      if !ok {
        return;
      }
    }
    assert subjects[..|subjects|] == subjects;
  }

  /** The folders planned for one faculty: its own and its subjects'. */
  ghost function OneFacultyDirs(deptDir: Path, faculty: FacultyFolders): set<Path>
  {
    {deptDir + [faculty.facultyId]} + SubjectDirs(deptDir + [faculty.facultyId], faculty.subjects)
  }

  /** One pass of the middle loop: the faculty folder, then its subject folders. */
  method CreateOneFaculty(fs: FileSystem, deptDir: Path, faculty: FacultyFolders) returns (ok: bool)
    requires fs.Valid() && deptDir != [] && deptDir in fs.dirs + fs.files
    modifies fs
    ensures fs.Valid() && fs.files == old(fs.files)
    ensures ({deptDir} + OneFacultyDirs(deptDir, faculty)) !! old(fs.files) ==> ok
    ensures ok ==> fs.dirs == old(fs.dirs) + (OneFacultyDirs(deptDir, faculty) - old(fs.files))
    ensures old(fs.dirs) <= fs.dirs <= old(fs.dirs) + OneFacultyDirs(deptDir, faculty)
  {
    var facultyDir := deptDir + [faculty.facultyId];
    PrefixesSnoc(deptDir, faculty.facultyId);
    assert forall q :: q in Prefixes(deptDir) && q != deptDir ==> q in fs.dirs;
    ok := EnsureDir(fs, facultyDir);
    if !ok {
      return;
    }
    ok := CreateSubjectFolders(fs, facultyDir, faculty.subjects);
  }

  /** The middle loop: one folder per faculty of a department, with its subjects. */
  method CreateFacultyFolders(fs: FileSystem, deptDir: Path, faculties: seq<FacultyFolders>) returns (ok: bool)
    requires fs.Valid() && deptDir != [] && deptDir in fs.dirs + fs.files
    modifies fs
    ensures fs.Valid() && fs.files == old(fs.files)
    ensures ({deptDir} + FacultyDirs(deptDir, faculties)) !! old(fs.files) ==> ok
    ensures ok ==> fs.dirs == old(fs.dirs) + (FacultyDirs(deptDir, faculties) - old(fs.files))
    ensures old(fs.dirs) <= fs.dirs <= old(fs.dirs) + FacultyDirs(deptDir, faculties)
  {
    ghost var D0, F := fs.dirs, fs.files;
    ghost var all := FacultyDirs(deptDir, faculties);
    ok := true;
    for k := 0 to |faculties|
      invariant fs.Valid() && fs.files == F && deptDir in fs.dirs + F
      invariant fs.dirs == D0 + (FacultyDirs(deptDir, faculties[..k]) - F)
      invariant fs.dirs <= D0 + all
      invariant ({deptDir} + all) !! F ==> ok
      invariant ok
    {
      FacultyDirsGrow(deptDir, faculties, k + 1);
      FacultyDirsSnoc(deptDir, faculties, k);
      ghost var one := OneFacultyDirs(deptDir, faculties[k]);
      assert FacultyDirs(deptDir, faculties[..k + 1]) == FacultyDirs(deptDir, faculties[..k]) + one;
      ok := CreateOneFaculty(fs, deptDir, faculties[k]);
      if !ok {
        return;
      }
    }
    assert faculties[..|faculties|] == faculties;
  }

  /** The folders planned for one department: its own and everything below it. */
  ghost function OneDepartmentDirs(yearDir: Path, department: string, structure: map<string, seq<FacultyFolders>>): set<Path>
  {
    {yearDir + [department]}
      + (if department in structure then FacultyDirs(yearDir + [department], structure[department]) else {})
  }

  /** One pass of the outer loop: the department folder, then its faculties. */
  method CreateOneDepartment(fs: FileSystem, yearDir: Path, department: string,
                             structure: map<string, seq<FacultyFolders>>) returns (ok: bool)
    requires fs.Valid() && yearDir != [] && yearDir in fs.dirs + fs.files
    modifies fs
    ensures fs.Valid() && fs.files == old(fs.files)
    ensures ({yearDir} + OneDepartmentDirs(yearDir, department, structure)) !! old(fs.files) ==> ok
    ensures ok ==> fs.dirs == old(fs.dirs) + (OneDepartmentDirs(yearDir, department, structure) - old(fs.files))
    ensures old(fs.dirs) <= fs.dirs <= old(fs.dirs) + OneDepartmentDirs(yearDir, department, structure)
  {
    var deptDir := yearDir + [department];
    PrefixesSnoc(yearDir, department);
    assert forall q :: q in Prefixes(yearDir) && q != yearDir ==> q in fs.dirs;
    ok := EnsureDir(fs, deptDir);
    if !ok {
      return;
    }
    if department in structure {
      ok := CreateFacultyFolders(fs, deptDir, structure[department]);
    }
  }

  /** The outer loop: one folder per department, with its faculties. */
  method CreateDepartmentFolders(fs: FileSystem, yearDir: Path, departments: seq<string>,
                                 structure: map<string, seq<FacultyFolders>>) returns (ok: bool)
    requires fs.Valid() && yearDir != [] && yearDir in fs.dirs + fs.files
    modifies fs
    ensures fs.Valid() && fs.files == old(fs.files)
    ensures ({yearDir} + DepartmentDirs(yearDir, departments, structure)) !! old(fs.files) ==> ok
    ensures ok ==> fs.dirs == old(fs.dirs) + (DepartmentDirs(yearDir, departments, structure) - old(fs.files))
    ensures old(fs.dirs) <= fs.dirs <= old(fs.dirs) + DepartmentDirs(yearDir, departments, structure)
  {
    ghost var D0, F := fs.dirs, fs.files;
    ghost var all := DepartmentDirs(yearDir, departments, structure);
    ok := true;
    for i := 0 to |departments|
      invariant fs.Valid() && fs.files == F && yearDir in fs.dirs + F
      invariant fs.dirs == D0 + (DepartmentDirs(yearDir, departments[..i], structure) - F)
      invariant fs.dirs <= D0 + all
      invariant ({yearDir} + all) !! F ==> ok
      invariant ok
    {
      DepartmentDirsGrow(yearDir, departments, structure, i + 1);
      DepartmentDirsSnoc(yearDir, departments, structure, i);
      ghost var one := OneDepartmentDirs(yearDir, departments[i], structure);
      assert DepartmentDirs(yearDir, departments[..i + 1], structure) ==
        DepartmentDirs(yearDir, departments[..i], structure) + one;
      ok := CreateOneDepartment(fs, yearDir, departments[i], structure);
      if !ok {
        return;
      }
    }
    assert departments[..|departments|] == departments;
  }

  /** `createFolderStructure()` for a given year, department list and faculty
      table. When no planned folder is taken by a file it succeeds and adds
      exactly the planned folders; a planned folder that is a file is
      skipped, but one with planned children makes `mkdirSync` throw and the
      script stop, having created only planned folders. Files are never
      touched. */
  method CreateFolderStructure(fs: FileSystem, year: string, departments: seq<string>,
                               structure: map<string, seq<FacultyFolders>>)
    returns (ok: bool)
    requires fs.Valid()
    modifies fs
    ensures fs.Valid() && fs.files == old(fs.files)
    ensures Planned(year, departments, structure) !! old(fs.files) ==> ok
    ensures ok ==> fs.dirs == old(fs.dirs) + (Planned(year, departments, structure) - old(fs.files))
    ensures old(fs.dirs) <= fs.dirs <= old(fs.dirs) + Planned(year, departments, structure)
  {
    var uploadsDir: Path := ["uploads"];
    var yearDir: Path := uploadsDir + [year];
    ghost var D0, F := fs.dirs, fs.files;
    ghost var planned := DepartmentDirs(yearDir, departments, structure);
    assert yearDir == ["uploads", year];
    assert Planned(year, departments, structure) == {uploadsDir, yearDir} + planned;
    assert Prefixes(uploadsDir) == {uploadsDir};
    ok := EnsureDir(fs, uploadsDir);
    if !ok {
      return;
    }
    PrefixesSnoc(uploadsDir, year);
    ok := EnsureDir(fs, yearDir);
    if !ok {
      assert uploadsDir in Prefixes(yearDir) - {yearDir};
      return;
    }
    assert fs.dirs == D0 + ({uploadsDir, yearDir} - F);
    ok := CreateDepartmentFolders(fs, yearDir, departments, structure);
  }

  lemma {:induction false} SubjectDirsHas(f: Path, subjects: seq<string>, s: string)
    requires s in subjects
    ensures f + [s] in SubjectDirs(f, subjects)
    decreases |subjects|
  {
    if subjects[|subjects| - 1] != s {
      assert s in subjects[..|subjects| - 1] by {
        var i :| 0 <= i < |subjects| && subjects[i] == s;
        assert subjects[..|subjects| - 1][i] == s;
      }
      SubjectDirsHas(f, subjects[..|subjects| - 1], s);
    }
  }

  lemma {:induction false} FacultyDirsHas(d: Path, faculties: seq<FacultyFolders>, e: FacultyFolders, s: string)
    requires e in faculties && s in e.subjects
    ensures d + [e.facultyId] in FacultyDirs(d, faculties)
    ensures d + [e.facultyId] + [s] in FacultyDirs(d, faculties)
    decreases |faculties|
  {
    if faculties[|faculties| - 1] != e {
      assert e in faculties[..|faculties| - 1] by {
        var i :| 0 <= i < |faculties| && faculties[i] == e;
        assert faculties[..|faculties| - 1][i] == e;
      }
      FacultyDirsHas(d, faculties[..|faculties| - 1], e, s);
    } else {
      SubjectDirsHas(d + [e.facultyId], e.subjects, s);
    }
  }

  lemma {:induction false} DepartmentDirsHas(y: Path, departments: seq<string>, structure: map<string, seq<FacultyFolders>>,
                                             d: string, e: FacultyFolders, s: string)
    requires d in departments && d in structure && e in structure[d] && s in e.subjects
    ensures y + [d] + [e.facultyId] + [s] in DepartmentDirs(y, departments, structure)
    decreases |departments|
  {
    if departments[|departments| - 1] != d {
      assert d in departments[..|departments| - 1] by {
        var i :| 0 <= i < |departments| && departments[i] == d;
        assert departments[..|departments| - 1][i] == d;
      }
      DepartmentDirsHas(y, departments[..|departments| - 1], structure, d, e, s);
    } else {
      FacultyDirsHas(y + [d], structure[d], e, s);
    }
  }

  /** A subject folder planned for a department list and faculty table is
      the directory the section upload middleware stores into for a teacher
      of that department, faculty id and subject, when the request names no
      academic year and the names are not empty. */
  lemma PlannedFolderIsUploadDestination(departments: seq<string>, structure: map<string, seq<FacultyFolders>>,
                                         d: string, e: FacultyFolders, s: string)
    requires d in departments && d in structure && e in structure[d] && s in e.subjects
    requires d != "" && e.facultyId != "" && s != ""
    ensures var p := ["uploads", AcademicYear, d, e.facultyId, s];
      && p in Planned(AcademicYear, departments, structure)
      && UploadMiddleware.DestinationPath(Some(UploadMiddleware.TeacherInfo(d, e.facultyId, Some(s))), None) == Some(p)
  {
    var y: Path := ["uploads", AcademicYear];
    DepartmentDirsHas(y, departments, structure, d, e, s);
    assert y + [d] + [e.facultyId] + [s] == ["uploads", AcademicYear, d, e.facultyId, s];
    assert "" !in [AcademicYear, d, e.facultyId, s];
    assert UploadMiddleware.AcademicYearOf(None) == AcademicYear;
    assert JoinPath([AcademicYear, d, e.facultyId, s]) == [AcademicYear, d, e.facultyId, s];
    assert ["uploads"] + [AcademicYear, d, e.facultyId, s] == ["uploads", AcademicYear, d, e.facultyId, s];
  }

  /** The seeded department, faculty and subject names are not empty. */
  lemma SeededNamesNonEmpty(d: string, e: FacultyFolders, s: string)
    requires d in Departments && d in FacultyStructure && e in FacultyStructure[d] && s in e.subjects
    ensures d != "" && e.facultyId != "" && s != ""
  {
  }

  /** Every subject folder the script seeds is the directory the section
      upload middleware stores into for a teacher of that department, faculty
      id and subject, when the request names no academic year. */
  lemma SeededFolderIsUploadDestination(d: string, e: FacultyFolders, s: string)
    requires d in Departments && d in FacultyStructure && e in FacultyStructure[d] && s in e.subjects
    ensures var p := ["uploads", AcademicYear, d, e.facultyId, s];
      && p in Planned(AcademicYear, Departments, FacultyStructure)
      && UploadMiddleware.DestinationPath(Some(UploadMiddleware.TeacherInfo(d, e.facultyId, Some(s))), None) == Some(p)
  {
    SeededNamesNonEmpty(d, e, s);
    PlannedFolderIsUploadDestination(Departments, FacultyStructure, d, e, s);
  }

  /** Running the script a second time adds nothing: every folder the first
      run made sure of is already there. */
  method RunTwice(fs: FileSystem, year: string, departments: seq<string>,
                  structure: map<string, seq<FacultyFolders>>) returns (first: bool, second: bool)
    requires fs.Valid()
    modifies fs
    ensures fs.Valid() && fs.files == old(fs.files)
    ensures Planned(year, departments, structure) !! old(fs.files) ==> first && second
    ensures first && second ==> fs.dirs == old(fs.dirs) + (Planned(year, departments, structure) - old(fs.files))
  {
    first := CreateFolderStructure(fs, year, departments, structure);
    ghost var once := fs.dirs;
    second := CreateFolderStructure(fs, year, departments, structure);
    assert first && second ==> fs.dirs == once;
  }
}
