/** The subject routes: creating, updating and deleting subject records
    with the per-teacher uniqueness of (subject code, academic year), the
    section update and file-delete handlers over the three schema slots, the
    download-merged-PDF planner and the Word-text pagination. Files are
    looked up at `uploads/<fileName>`, which is not where the upload
    middleware writes them; the model keeps that as written. */
module SubjectRoutes {
  import opened Common
  import opened Disk
  import opened SubjectModel
  import UploadMiddleware

  /** The six fields of a create or update request body; "" stands for a missing field. */
  datatype SubjectForm = SubjectForm(academicYear: string, year: string, semester: string,
                                     subjectCode: string, subjectName: string, regulation: string)

  /** A reply: a JSON message, a subject record, or the page Express's
      default error handler renders for an error passed on by middleware,
      with that error's message when the model fixes it. */
  datatype Reply =
    | Message(status: nat, message: string)
    | Record(status: nat, subject: Subject)
    | ErrorPage(status: nat, error: Option<string>)

  const AllFieldsRequired: string := "All fields are required"
  const DuplicateCode: string := "Subject with this code already exists for this academic year"
  const SubjectNotFound: string := "Subject not found"
  const ServerError: string := "Server error"
  const InvalidSection: string := "Invalid section name"
  const SubjectDeleted: string := "Subject deleted successfully"
  const NoFilesToMerge: string := "No files found to merge"
  const MergeFailed: string := "Error merging files"

  /** The section names these routes accept, in catalog order. */
  const SectionNames: seq<string> := ["timetable", "lessonplan", "midsheets"]

  predicate ValidSectionName(name: string)
  {
    name in SectionNames
  }

  /** `!academicYear || !year || ...`: every field is present and non-empty. */
  predicate Provided(f: SubjectForm)
  {
    f.academicYear != "" && f.year != "" && f.semester != "" && f.subjectCode != ""
    && f.subjectName != "" && f.regulation != ""
  }

  /** Where the routes look a stored file up: `uploads/<fileName>`. */
  function LookupPath(fileName: string): Path
  {
    ["uploads", fileName]
  }

  /** `subject[name].fileName`, "" for a name the schema does not declare. */
  function SlotFile(s: Subject, name: string): string
  {
    match GetSlot(s, name)
    case None => ""
    case Some(slot) => slot.fileName
  }

  /** A file the section upload middleware writes is never at the path the
      routes look it up at: the middleware's directory lies below
      `uploads/<academic year>`, one level deeper at least. */
  lemma LookupMissesUploadedFile(teacher: Option<UploadMiddleware.TeacherInfo>, bodyYear: Option<string>,
                                 stored: string, looked: string)
    requires UploadMiddleware.DestinationPath(teacher, bodyYear).Some?
    ensures LookupPath(looked) != UploadMiddleware.DestinationPath(teacher, bodyYear).value + [stored]
  {
    var dest := UploadMiddleware.DestinationPath(teacher, bodyYear).value;
    assert |dest + [stored]| >= 3;
  }

  // ---------------------------------------------------------------------
  // Uniqueness of (teacher, subjectCode, academicYear)

  predicate SameKey(a: Subject, b: Subject)
  {
    a.teacher == b.teacher && a.subjectCode == b.subjectCode && a.academicYear == b.academicYear
  }

  /** No two records of one teacher share a subject code in one academic year. */
  ghost predicate Unique(m: map<string, Subject>)
  {
    forall a, b :: a in m && b in m && SameKey(m[a], m[b]) ==> a == b
  }

  /** `Subject.findOne({ teacher, subjectCode, academicYear[, _id: { $ne: except }] })`,
      the query values trimmed like the stored ones. */
  predicate Clash(m: map<string, Subject>, teacher: string, f: SubjectForm, except: Option<string>)
  {
    exists k :: k in m && Some(k) != except && m[k].teacher == teacher
      && m[k].subjectCode == Trim(f.subjectCode) && m[k].academicYear == Trim(f.academicYear)
  }

  /** Adding or replacing the record under `id` keeps the store unique when
      no other record clashes with it. */
  lemma PutKeepsUnique(m: map<string, Subject>, id: string, r: Subject)
    requires Unique(m)
    requires forall k :: k in m && k != id ==> !SameKey(m[k], r)
    ensures Unique(m[id := r])
  {
    var m' := m[id := r];
    forall a, b | a in m' && b in m' && SameKey(m'[a], m'[b])
      ensures a == b
    {
      if a == id && b != id {
        assert SameKey(m[b], r);
      }
    }
  }

  /** A record saved from a form carries the trimmed code and year, so a
      clash of the form with another record is a clash of the saved record. */
  lemma NoClashMeansNoSameKey(m: map<string, Subject>, teacher: string, f: SubjectForm,
                              except: Option<string>, r: Subject)
    requires !Clash(m, teacher, f, except)
    requires r.teacher == teacher && r.subjectCode == Trim(f.subjectCode) && r.academicYear == Trim(f.academicYear)
    ensures forall k :: k in m && Some(k) != except ==> !SameKey(m[k], r)
  {
  }

  /** Changing a slot keeps a settled record settled, so saving it stores it unchanged. */
  lemma SlotsDoNotAffectValidation(s: Subject, name: string, slot: SectionSlot)
    requires Settled(s) && IsSlotName(name)
    ensures Settled(SetSlot(s, name, slot))
  {
  }

  /** Every record sits under its own id, is as `save()` stored it, and the
      collection is unique on (teacher, subjectCode, academicYear). */
  ghost predicate ValidStore(m: map<string, Subject>)
  {
    && (forall id :: id in m ==> m[id].id == id && Settled(m[id]))
    && Unique(m)
  }

  /** Storing a settled record under its own id, with no other record of
      the same key, keeps the collection valid. */
  lemma PutKeepsValid(m: map<string, Subject>, id: string, r: Subject)
    requires ValidStore(m) && r.id == id && Settled(r)
    requires forall k :: k in m && k != id ==> !SameKey(m[k], r)
    ensures ValidStore(m[id := r])
  {
    PutKeepsUnique(m, id, r);
  }

  /** Changing one slot of a stored record keeps the collection valid: the
      slot is neither part of the key nor of what `save()` normalises. */
  lemma SetSlotKeepsValid(m: map<string, Subject>, id: string, name: string, slot: SectionSlot)
    requires ValidStore(m) && id in m && IsSlotName(name)
    ensures ValidStore(m[id := SetSlot(m[id], name, slot)])
  {
    var r := SetSlot(m[id], name, slot);
    SlotsDoNotAffectValidation(m[id], name, slot);
    forall k | k in m && k != id
      ensures !SameKey(m[k], r)
    {
      assert !SameKey(m[k], m[id]);
    }
    PutKeepsValid(m, id, r);
  }

  /** Removing a record keeps the collection valid. */
  lemma RemoveKeepsValid(m: map<string, Subject>, id: string)
    requires ValidStore(m)
    ensures ValidStore(m - {id})
  {
  }

  // ---------------------------------------------------------------------
  // Section slot updates

  /** The slot after a section PUT: the description overwritten when the
      request carries one (even ""), and with an uploaded file its name, its
      URL and the upload time. */
  function UpdatedSlot(slot: SectionSlot, description: Option<string>, stored: Option<string>, now: nat): (r: SectionSlot)
    ensures description.Some? ==> r.description == description.value
    ensures description.None? ==> r.description == slot.description
    ensures stored.None? ==> r.fileName == slot.fileName && r.fileUrl == slot.fileUrl && r.uploadedAt == slot.uploadedAt
    ensures stored.Some? ==> r.fileName == stored.value && r.fileUrl == "/uploads/" + r.fileName && r.uploadedAt == Some(now)
  {
    var d := if description.Some? then description.value else slot.description;
    match stored
    case None => slot.(description := d)
    case Some(name) => SectionSlot(d, name, "/uploads/" + name, Some(now))
  }

  /** The slot after its file is deleted: no file, no URL, no upload time. */
  function ClearedSlot(slot: SectionSlot): (r: SectionSlot)
    ensures r.description == slot.description && r.fileName == "" && r.fileUrl == "" && r.uploadedAt == None
  {
    slot.(fileName := "", fileUrl := "", uploadedAt := None)
  }

  /** The files a subject's deletion removes: `uploads/<fileName>` of each
      listed section whose file name is non-empty. */
  function AttachedPaths(s: Subject, names: seq<string>): set<Path>
  {
    set n | n in names && SlotFile(s, n) != "" :: LookupPath(SlotFile(s, n))
  }

  lemma AttachedPathsSnoc(s: Subject, names: seq<string>, i: nat)
    requires i < |names|
    ensures AttachedPaths(s, names[..i + 1]) ==
      AttachedPaths(s, names[..i]) + (if SlotFile(s, names[i]) != "" then {LookupPath(SlotFile(s, names[i]))} else {})
  {
    assert names[..i + 1] == names[..i] + [names[i]];
  }

  /** Deleting a subject's files stopped at the k-th listed section: its
      attached path is a directory, the sections before it were unlinked
      without trouble, and exactly their files are gone. */
  predicate StoppedAt(s: Subject, k: nat, files0: set<Path>, dirs: set<Path>, files: set<Path>)
  {
    && k < |SectionNames|
    && SlotFile(s, SectionNames[k]) != ""
    && LookupPath(SlotFile(s, SectionNames[k])) in dirs
    && AttachedPaths(s, SectionNames[..k]) !! dirs
    && files == files0 - AttachedPaths(s, SectionNames[..k])
  }

  // ---------------------------------------------------------------------
  // The merge planner

  /** `sectionsWithFiles`: the sections whose file name is non-blank, in
      catalog order. A name is blank when `trim()` leaves nothing of it, that
      is, when it is all white space (`Common.TrimEmptyIffAllSpace`). */
  function MergeCandidates(s: Subject, names: seq<string>): (r: seq<string>)
    ensures |r| <= |names|
  {
    if names == [] then []
    else
      var rest := MergeCandidates(s, names[1..]);
      if !AllSpace(SlotFile(s, names[0])) then [names[0]] + rest else rest
  }

  /** A section is a candidate exactly when it is in the catalog and its
      file name is non-blank. */
  lemma {:induction false} MergeCandidatesMembers(s: Subject, names: seq<string>, n: string)
    ensures n in MergeCandidates(s, names) <==> n in names && !AllSpace(SlotFile(s, n))
    decreases |names|
  {
    if names != [] {
      MergeCandidatesMembers(s, names[1..], n);
      assert names == [names[0]] + names[1..];
    }
  }

  /** Filtering keeps the catalog order: the candidates of a catalog split
      in two are those of the first half followed by those of the second. */
  lemma {:induction false} MergeCandidatesConcat(s: Subject, a: seq<string>, b: seq<string>)
    ensures MergeCandidates(s, a + b) == MergeCandidates(s, a) + MergeCandidates(s, b)
    decreases |a|
  {
    if a == [] {
      assert a + b == b;
    } else {
      assert (a + b)[0] == a[0] && (a + b)[1..] == a[1..] + b;
      MergeCandidatesConcat(s, a[1..], b);
    }
  }

  /** There is nothing to merge exactly when every section's file name is blank. */
  lemma NoCandidatesIffAllBlank(s: Subject, names: seq<string>)
    ensures MergeCandidates(s, names) == [] <==> forall n :: n in names ==> AllSpace(SlotFile(s, n))
  {
    if MergeCandidates(s, names) != [] {
      MergeCandidatesMembers(s, names, MergeCandidates(s, names)[0]);
    } else {
      forall n | n in names
        ensures AllSpace(SlotFile(s, n))
      {
        MergeCandidatesMembers(s, names, n);
      }
    }
  }

  /** The temporary PDF a Word section converts into: `temp/<section>_<now>.pdf`. */
  function TempPdfPath(name: string, now: nat): Path
  {
    ["temp", name + "_" + Decimal(now) + ".pdf"]
  }

  /** `${subjectName}_${subjectCode}_merged_${Date.now()}.pdf` */
  function MergedFileName(subjectName: string, subjectCode: string, now: nat): string
  {
    subjectName + "_" + subjectCode + "_merged_" + Decimal(now) + ".pdf"
  }

  /** Any non-empty name followed by ".pdf" has extension ".pdf". */
  lemma PdfSuffixIsExtension(x: string)
    requires x != ""
    ensures UploadMiddleware.ExtName(x + ".pdf") == ".pdf"
  {
    var s := x + ".pdf";
    var j := UploadMiddleware.LastDot(s);
    assert s[|x|] == '.' && s[|x| + 1] == 'p' && s[|x| + 2] == 'd' && s[|x| + 3] == 'f';
    assert j.Some? && j.value >= |x|;
    assert j.value == |x|;
    assert s[|x|..] == ".pdf";
    assert s != "..";
  }

  /** The merged file is named after the subject and is a ".pdf" file. */
  lemma MergedFileNameShape(subjectName: string, subjectCode: string, now: nat)
    ensures var n := MergedFileName(subjectName, subjectCode, now);
      && n[..|subjectName| + 1] == subjectName + "_"
      && UploadMiddleware.ExtName(n) == ".pdf"
  {
    var x := subjectName + "_" + subjectCode + "_merged_" + Decimal(now);
    assert MergedFileName(subjectName, subjectCode, now) == x + ".pdf";
    PdfSuffixIsExtension(x);
  }

  /** What one candidate section adds to the merge. */
  datatype Part = Skip | Append(path: Path) | Broken

  /** A Word candidate's conversion goes through: the file exists, text
      extraction succeeds, and the temporary PDF can be written under "temp". */
  predicate TempWritten(name: string, fileName: string, files: set<Path>, dirs: set<Path>,
                        now: nat, convert: Path -> bool)
  {
    var p := LookupPath(fileName);
    var ext := ToLower(UploadMiddleware.ExtName(fileName));
    && (ext == ".doc" || ext == ".docx")
    && p in files && convert(p) && ["temp"] in dirs && TempPdfPath(name, now) !in dirs
  }

  /** One candidate: missing on disk → skipped; ".pdf" (any case) → appended
      as is, a directory of that name or a file the merger cannot load
      breaking the merge; ".doc"/".docx" → its converted temporary PDF
      appended when conversion succeeded and the temporary file could be
      written, the merge breaking when the merger cannot load it; any other
      extension → skipped. `files` are the files before the merge, `dirs`
      the directories once the temp directory is made sure of, `convert`
      whether text extraction succeeds on a file, `loads` whether
      `merger.add` accepts a file. */
  function Contribution(name: string, fileName: string, files: set<Path>, dirs: set<Path>,
                        now: nat, convert: Path -> bool, loads: Path -> bool): (r: Part)
    ensures LookupPath(fileName) !in files + dirs ==> r == Skip
    ensures r.Append? ==> r.path == LookupPath(fileName) || r.path == TempPdfPath(name, now)
    ensures r.Append? ==> loads(r.path)
    ensures r == Broken <==>
      || (&& ToLower(UploadMiddleware.ExtName(fileName)) == ".pdf"
          && LookupPath(fileName) in files + dirs
          && (LookupPath(fileName) in files ==> !loads(LookupPath(fileName))))
      || (TempWritten(name, fileName, files, dirs, now, convert) && !loads(TempPdfPath(name, now)))
  {
    var p := LookupPath(fileName);
    if p !in files && p !in dirs then Skip
    else
      var ext := ToLower(UploadMiddleware.ExtName(fileName));
      if ext == ".pdf" then
        if p in files && loads(p) then Append(p) else Broken
      else if TempWritten(name, fileName, files, dirs, now, convert) then
        var t := TempPdfPath(name, now);
        if loads(t) then Append(t) else Broken
      else Skip
  }

  /** The contributions of the candidates, in order. */
  function Contributions(s: Subject, names: seq<string>, files: set<Path>, dirs: set<Path>,
                         now: nat, convert: Path -> bool, loads: Path -> bool): (r: seq<Part>)
    ensures |r| == |names|
  {
    if names == [] then []
    else
      var n := names[|names| - 1];
      Contributions(s, names[..|names| - 1], files, dirs, now, convert, loads)
        + [Contribution(n, SlotFile(s, n), files, dirs, now, convert, loads)]
  }

  /** The k-th part is the k-th candidate's contribution. */
  lemma {:induction false} ContributionsAt(s: Subject, names: seq<string>, files: set<Path>, dirs: set<Path>,
                                           now: nat, convert: Path -> bool, loads: Path -> bool, k: nat)
    requires k < |names|
    ensures Contributions(s, names, files, dirs, now, convert, loads)[k]
         == Contribution(names[k], SlotFile(s, names[k]), files, dirs, now, convert, loads)
    decreases |names|
  {
    if k < |names| - 1 {
      ContributionsAt(s, names[..|names| - 1], files, dirs, now, convert, loads, k);
    }
  }

  /** The paths handed to the merger. */
  function Appended(parts: seq<Part>): (r: seq<Path>)
    ensures |r| <= |parts|
  {
    if parts == [] then []
    else
      var last := parts[|parts| - 1];
      Appended(parts[..|parts| - 1]) + (if last.Append? then [last.path] else [])
  }

  /** The converted temporary PDFs among the appended paths, each scheduled for deletion. */
  function Converted(parts: seq<Part>): (r: seq<Path>)
    ensures forall p :: p in r ==> Append(p) in parts && |p| == 2 && p[0] == "temp"
  {
    if parts == [] then []
    else
      var last := parts[|parts| - 1];
      Converted(parts[..|parts| - 1])
        + (if last.Append? && |last.path| == 2 && last.path[0] == "temp" then [last.path] else [])
  }

  /** When none of the candidates' files is at its looked-up path — as for
      every file the upload middleware writes — nothing is appended. */
  lemma {:induction false} NothingFoundNothingMerged(s: Subject, names: seq<string>, files: set<Path>,
                                                     dirs: set<Path>, now: nat, convert: Path -> bool,
                                                     loads: Path -> bool)
    requires forall n :: n in names ==> LookupPath(SlotFile(s, n)) !in files + dirs
    ensures Appended(Contributions(s, names, files, dirs, now, convert, loads)) == []
    decreases |names|
  {
    if names != [] {
      var parts := Contributions(s, names, files, dirs, now, convert, loads);
      assert parts[..|parts| - 1] == Contributions(s, names[..|names| - 1], files, dirs, now, convert, loads);
      NothingFoundNothingMerged(s, names[..|names| - 1], files, dirs, now, convert, loads);
    }
  }

  /** Only ".pdf" files and converted Word files are merged: a candidate
      whose extension is neither contributes nothing. */
  lemma OtherExtensionsSkipped(name: string, fileName: string, files: set<Path>, dirs: set<Path>,
                               now: nat, convert: Path -> bool, loads: Path -> bool)
    requires ToLower(UploadMiddleware.ExtName(fileName)) !in [".pdf", ".doc", ".docx"]
    ensures Contribution(name, fileName, files, dirs, now, convert, loads) == Skip
  {
  }

  /** A reply to the download request, with the temporary files whose
      deletion a timer has been set for by then. */
  datatype MergeReply =
    | MergeError(status: nat, message: string, scheduled: seq<Path>)
    | Download(parts: seq<Path>, output: Path, fileName: string, scheduled: seq<Path>)

  function SetOf(ps: seq<Path>): set<Path>
  {
    set p | p in ps
  }

  lemma SetOfConcat(a: seq<Path>, b: seq<Path>)
    ensures SetOf(a + b) == SetOf(a) + SetOf(b)
  {
  }

  // ---------------------------------------------------------------------
  // Word text pagination

  /** Where `doc.text(lines[i], 10, y)` puts a line. */
  datatype Placement = Placement(text: string, page: nat, x: int, y: int)

  const LineHeight: int := 10
  const PageHeight: int := 280
  const TopMargin: int := 20
  const LinesPerPage: nat := 27

  /** `convertWordToPdf`'s layout loop over the already split lines: line i
      lands on page i div 27 at x = 10, y = 20 + 10 * (i mod 27), and the
      document has max(1, ceil(n / 27)) pages. */
  method Paginate(lines: seq<string>) returns (placements: seq<Placement>, pages: nat)
    ensures |placements| == |lines|
    ensures forall i :: 0 <= i < |lines| ==>
      placements[i] == Placement(lines[i], i / LinesPerPage, 10, TopMargin + LineHeight * (i % LinesPerPage))
    ensures pages == if |lines| == 0 then 1 else (|lines| - 1) / LinesPerPage + 1
    ensures pages >= 1 && (pages - 1) * LinesPerPage <= |lines| && (|lines| <= pages * LinesPerPage)
  {
    var y := TopMargin;
    pages := 1;
    placements := [];
    ghost var row: nat := 0;
    for i := 0 to |lines|
      invariant |placements| == i
      invariant forall k :: 0 <= k < i ==>
        placements[k] == Placement(lines[k], k / LinesPerPage, 10, TopMargin + LineHeight * (k % LinesPerPage))
      invariant pages >= 1 && row <= LinesPerPage && y == TopMargin + LineHeight * row
      invariant i == LinesPerPage * (pages - 1) + row
      invariant i > 0 ==> row >= 1
    {
      if y > PageHeight {
        pages := pages + 1;
        y := TopMargin;
        row := 0;
      }
      assert i / LinesPerPage == pages - 1 && i % LinesPerPage == row;
      placements := placements + [Placement(lines[i], pages - 1, 10, y)];
      y := y + LineHeight;
      row := row + 1;
    }
  }

  /** The section handler once multer has run, from the collection
      `subjects0` and the files `files0` to `subjects` and `files`: the name
      is checked before the subject is looked up, the description is
      overwritten when given, and an uploaded file (`storedName`) replaces
      the old one, which is unlinked when it exists; a directory in its
      place makes the unlink throw and the handler answer 500. */
  ghost predicate SectionHandled(subjects0: map<string, Subject>, subjects: map<string, Subject>,
                                 files0: set<Path>, files: set<Path>, dirs: set<Path>,
                                 id: string, teacherId: string, sectionName: string,
                                 description: Option<string>, storedName: Option<string>, now: nat, reply: Reply)
  {
    if !ValidSectionName(sectionName) then
      reply == Message(400, InvalidSection) && subjects == subjects0 && files == files0
    else if !(id in subjects0 && subjects0[id].teacher == teacherId) then
      reply == Message(404, SubjectNotFound) && subjects == subjects0 && files == files0
    else
      var s := subjects0[id];
      var slot := GetSlot(s, sectionName).value;
      var replaced := storedName.Some? && slot.fileName != "";
      var saved := SetSlot(s, sectionName, UpdatedSlot(slot, description, storedName, now));
      if replaced && LookupPath(slot.fileName) in dirs then
        reply == Message(500, ServerError) && subjects == subjects0 && files == files0
      else
        && reply == Record(200, saved) && subjects == subjects0[id := saved]
        && files == files0 - (if replaced then {LookupPath(slot.fileName)} else {})
  }

  // ---------------------------------------------------------------------
  // The store

  class SubjectStore {
    /** The subject collection, by `_id`. */
    var subjects: map<string, Subject>

    /** Every record sits under its own id, is as `save()` stored it, and
        the store is unique on (teacher, subjectCode, academicYear). */
    ghost predicate Valid()
      reads this
    {
      ValidStore(subjects)
    }

    constructor ()
      ensures Valid() && subjects == map[]
    {
      subjects := map[];
    }

    /** `Subject.findOne({ _id: id, teacher: teacherId })` */
    function Owned(id: string, teacherId: string): (r: Option<Subject>)
      reads this
      ensures r.Some? <==> id in subjects && subjects[id].teacher == teacherId
      ensures r.Some? ==> r.value == subjects[id]
    {
      if id in subjects && subjects[id].teacher == teacherId then Some(subjects[id]) else None
    }

    /** `POST /api/subjects` */
    method CreateSubject(teacherId: string, f: SubjectForm, newId: string, now: nat) returns (reply: Reply)
      requires Valid() && newId !in subjects
      modifies this
      ensures Valid()
      ensures !Provided(f) ==> reply == Message(400, AllFieldsRequired) && subjects == old(subjects)
      ensures Provided(f) && Clash(old(subjects), teacherId, f, None) ==>
        reply == Message(400, DuplicateCode) && subjects == old(subjects)
      ensures Provided(f) && !Clash(old(subjects), teacherId, f, None) ==>
        var r := Save(NewSubject(newId, teacherId, f.academicYear, f.year, f.semester,
                                 f.subjectCode, f.subjectName, f.regulation, now));
        && (r.None? ==> reply == Message(500, ServerError) && subjects == old(subjects))
        && (r.Some? ==> reply == Record(201, r.value) && subjects == old(subjects)[newId := r.value])
    {
      if !Provided(f) {
        return Message(400, AllFieldsRequired);
      }
      if Clash(subjects, teacherId, f, None) {
        return Message(400, DuplicateCode);
      }
      var r := Save(NewSubject(newId, teacherId, f.academicYear, f.year, f.semester,
                               f.subjectCode, f.subjectName, f.regulation, now));
      if r.None? {
        return Message(500, ServerError);
      }
      SavedIsSettled(NewSubject(newId, teacherId, f.academicYear, f.year, f.semester,
                                f.subjectCode, f.subjectName, f.regulation, now));
      NoClashMeansNoSameKey(subjects, teacherId, f, None, r.value);
      PutKeepsValid(subjects, newId, r.value);
      subjects := subjects[newId := r.value];
      reply := Record(201, r.value);
    }

    /** `PUT /api/subjects/:id` */
    method UpdateSubject(id: string, teacherId: string, f: SubjectForm) returns (reply: Reply)
      requires Valid()
      modifies this
      ensures Valid()
      ensures !Provided(f) ==> reply == Message(400, AllFieldsRequired) && subjects == old(subjects)
      ensures Provided(f) && old(Owned(id, teacherId)).None? ==>
        reply == Message(404, SubjectNotFound) && subjects == old(subjects)
      ensures Provided(f) && old(Owned(id, teacherId)).Some? && Clash(old(subjects), teacherId, f, Some(id)) ==>
        reply == Message(400, DuplicateCode) && subjects == old(subjects)
      ensures Provided(f) && old(Owned(id, teacherId)).Some? && !Clash(old(subjects), teacherId, f, Some(id)) ==>
        var r := Save(old(subjects)[id].(academicYear := f.academicYear, year := f.year, semester := f.semester,
                                          subjectCode := f.subjectCode, subjectName := f.subjectName,
                                          regulation := f.regulation));
        && (r.None? ==> reply == Message(500, ServerError) && subjects == old(subjects))
        && (r.Some? ==> reply == Record(200, r.value) && subjects == old(subjects)[id := r.value])
    {
      if !Provided(f) {
        return Message(400, AllFieldsRequired);
      }
      var found := Owned(id, teacherId);
      if found.None? {
        return Message(404, SubjectNotFound);
      }
      if Clash(subjects, teacherId, f, Some(id)) {
        return Message(400, DuplicateCode);
      }
      var edited := found.value.(academicYear := f.academicYear, year := f.year, semester := f.semester,
                                 subjectCode := f.subjectCode, subjectName := f.subjectName,
                                 regulation := f.regulation);
      var r := Save(edited);
      if r.None? {
        return Message(500, ServerError);
      }
      SavedIsSettled(edited);
      NoClashMeansNoSameKey(subjects, teacherId, f, Some(id), r.value);
      PutKeepsValid(subjects, id, r.value);
      subjects := subjects[id := r.value];
      reply := Record(200, r.value);
    }

    /** `DELETE /api/subjects/:id`: unlinks every attached file that exists,
        then removes the record; a directory at an attached path makes
        `unlinkSync` throw and the request fail with the record kept, the
        files of the sections before it already gone. */
    method DeleteSubject(fs: FileSystem, id: string, teacherId: string) returns (reply: Reply)
      requires Valid() && fs.Valid()
      modifies this, fs
      ensures Valid() && fs.Valid() && fs.dirs == old(fs.dirs)
      ensures old(Owned(id, teacherId)).None? ==>
        reply == Message(404, SubjectNotFound) && subjects == old(subjects) && fs.files == old(fs.files)
      ensures old(Owned(id, teacherId)).Some? ==>
        var attached := AttachedPaths(old(subjects)[id], SectionNames);
        && (attached !! old(fs.dirs) ==>
              reply == Message(200, SubjectDeleted) && subjects == old(subjects) - {id}
              && fs.files == old(fs.files) - attached)
        && (!(attached !! old(fs.dirs)) ==>
              && reply == Message(500, ServerError) && subjects == old(subjects)
              && exists k :: StoppedAt(old(subjects)[id], k, old(fs.files), old(fs.dirs), fs.files))
    {
      var found := Owned(id, teacherId);
      if found.None? {
        return Message(404, SubjectNotFound);
      }
      var s := found.value;
      ghost var F := fs.files;
      ghost var all := AttachedPaths(s, SectionNames);
      for i := 0 to |SectionNames|
        invariant fs.Valid() && fs.dirs == old(fs.dirs) && subjects == old(subjects)
        invariant fs.files == F - AttachedPaths(s, SectionNames[..i])
        invariant AttachedPaths(s, SectionNames[..i]) !! fs.dirs
        invariant AttachedPaths(s, SectionNames[..i]) <= all
      {
        AttachedPathsSnoc(s, SectionNames, i);
        var fileName := SlotFile(s, SectionNames[i]);
        if fileName != "" {
          var filePath := LookupPath(fileName);
          assert filePath in all;
          if fs.Exists(filePath) {
            var ok := fs.Unlink(filePath);
            if !ok {
              assert StoppedAt(s, i, F, fs.dirs, fs.files);
              return Message(500, ServerError);
            }
          }
        }
      }
      assert SectionNames[..|SectionNames|] == SectionNames;
      RemoveKeepsValid(subjects, id);
      subjects := subjects - {id};
      reply := Message(200, SubjectDeleted);
    }

    /** `PUT /api/subjects/:id/section/:sectionName`. The upload middleware
        runs first: a file it rejects fails the request through Express's
        error page with nothing else done, and a file it accepts stays on disk whatever the handler then
        answers. Then the name is checked before the subject is looked up,
        the description is overwritten when given, and an uploaded file
        replaces the old one, which is unlinked when it exists. `stored` is
        the file the middleware wrote. */
    method UpdateSection(fs: FileSystem, id: string, teacherId: string, sectionName: string,
                         description: Option<string>, file: Option<UploadMiddleware.IncomingFile>,
                         uploader: UploadMiddleware.TeacherInfo, bodyYear: Option<string>, now: nat, random: nat)
      returns (reply: Reply, stored: Option<UploadMiddleware.StoredFile>)
      requires Valid() && fs.Valid()
      modifies this, fs
      ensures Valid() && fs.Valid()
      ensures file.None? ==> stored.None? && fs.dirs == old(fs.dirs)
      ensures stored.Some? ==>
        && file.Some?
        && UploadMiddleware.FileFilter(file.value.mimetype) && UploadMiddleware.WithinLimit(file.value.size)
        && Some(stored.value.destination) == UploadMiddleware.DestinationPath(Some(uploader), bodyYear)
        && stored.value.filename == UploadMiddleware.StoredName(file.value.fieldname, file.value.originalname, now, random)
        && stored.value.destination + [stored.value.filename] in fs.files
      ensures file.Some? ==>
        (stored.Some? <==> UploadMiddleware.Accepts(old(fs.files), old(fs.dirs), Some(uploader), bodyYear, file.value, now, random))
      ensures file.Some? ==>
        fs.dirs == UploadMiddleware.DirsAfter(old(fs.dirs), old(fs.files), Some(uploader), bodyYear, file.value.mimetype)
      ensures file.Some? && stored.None? ==>
        reply.ErrorPage? && reply.status == 500 && subjects == old(subjects) && fs.files == old(fs.files)
      ensures file.Some? && !UploadMiddleware.FileFilter(file.value.mimetype) ==>
        reply == ErrorPage(500, Some(FilterRejection))
      ensures file.Some? && UploadMiddleware.FileFilter(file.value.mimetype)
              && UploadMiddleware.Creatable(old(fs.files), Some(uploader), bodyYear)
              && !UploadMiddleware.WithinLimit(file.value.size) ==>
        reply == ErrorPage(500, Some(SizeRejection))
      ensures file.Some? && stored.None? && UploadMiddleware.FileFilter(file.value.mimetype)
              && (UploadMiddleware.Creatable(old(fs.files), Some(uploader), bodyYear) ==>
                    UploadMiddleware.WithinLimit(file.value.size)) ==>
        reply == ErrorPage(500, None)
      ensures file.None? || stored.Some? ==>
        var written := if stored.Some? then {stored.value.destination + [stored.value.filename]} else {};
        SectionHandled(old(subjects), subjects, old(fs.files) + written, fs.files, fs.dirs, id, teacherId,
                       sectionName, description, if stored.Some? then Some(stored.value.filename) else None, now, reply)
    {
      stored := None;
      if file.Some? {
        var r, err := UploadMiddleware.ReceiveFile(fs, Some(uploader), bodyYear, file.value, now, random);
        if err.Some? {
          return ErrorPage(500, UploadErrorMessage(err.value)), None;
        }
        stored := r;
      }
      assert stored.Some? ==> |stored.value.destination| >= 2;
      ghost var written := if stored.Some? then {stored.value.destination + [stored.value.filename]} else {};
      assert fs.files == old(fs.files) + written;
      var storedName := if stored.Some? then Some(stored.value.filename) else None;
      reply := HandleSection(fs, id, teacherId, sectionName, description, storedName, now);
    }

    /** The section handler proper, once multer has run; `storedName` is the
        name of the uploaded file, if any. */
    method HandleSection(fs: FileSystem, id: string, teacherId: string, sectionName: string,
                         description: Option<string>, storedName: Option<string>, now: nat) returns (reply: Reply)
      requires Valid() && fs.Valid()
      modifies this, fs
      ensures Valid() && fs.Valid() && fs.dirs == old(fs.dirs)
      ensures SectionHandled(old(subjects), subjects, old(fs.files), fs.files, fs.dirs, id, teacherId,
                             sectionName, description, storedName, now, reply)
      ensures forall p :: p in old(fs.files) && p !in fs.files ==> |p| == 2
    {
      if !ValidSectionName(sectionName) {
        return Message(400, InvalidSection);
      }
      var found := Owned(id, teacherId);
      if found.None? {
        return Message(404, SubjectNotFound);
      }
      reply := ApplySectionUpdate(fs, found.value, sectionName, description, storedName, now);
    }

    /** The part of the section handler after the subject is found; `storedName`
        is the name of the uploaded file, if any. Saving the settled record
        stores it unchanged (`SettledSavesUnchanged`). */
    method ApplySectionUpdate(fs: FileSystem, s: Subject, sectionName: string, description: Option<string>,
                              storedName: Option<string>, now: nat) returns (reply: Reply)
      requires Valid() && fs.Valid() && IsSlotName(sectionName) && s.id in subjects && subjects[s.id] == s
      modifies this, fs
      ensures Valid() && fs.Valid() && fs.dirs == old(fs.dirs)
      ensures var slot := GetSlot(s, sectionName).value;
        var replaced := storedName.Some? && slot.fileName != "";
        var saved := SetSlot(s, sectionName, UpdatedSlot(slot, description, storedName, now));
        && (replaced && LookupPath(slot.fileName) in fs.dirs ==>
              reply == Message(500, ServerError) && subjects == old(subjects) && fs.files == old(fs.files))
        && (!(replaced && LookupPath(slot.fileName) in fs.dirs) ==>
              && reply == Record(200, saved) && subjects == old(subjects)[s.id := saved]
              && fs.files == old(fs.files) - (if replaced then {LookupPath(slot.fileName)} else {}))
    {
      var slot := GetSlot(s, sectionName).value;
      var updated := slot;
      if description.Some? {
        updated := updated.(description := description.value);
      }
      if storedName.Some? {
        if slot.fileName != "" {
          var ok := UnlinkIfExists(fs, LookupPath(slot.fileName));
          if !ok {
            return Message(500, ServerError);
          }
        }
        updated := updated.(fileName := storedName.value, fileUrl := "/uploads/" + storedName.value,
                            uploadedAt := Some(now));
      }
      assert updated == UpdatedSlot(slot, description, storedName, now);
      var saved := SetSlot(s, sectionName, updated);
      SetSlotKeepsValid(subjects, s.id, sectionName, updated);
      subjects := subjects[s.id := saved];
      reply := Record(200, saved);
    }

    /** `DELETE /api/subjects/:id/section/:sectionName/file`: with no file
        recorded nothing changes and the record is returned; otherwise the
        file is unlinked when it exists and the slot's file fields reset. */
    method DeleteSectionFile(fs: FileSystem, id: string, teacherId: string, sectionName: string) returns (reply: Reply)
      requires Valid() && fs.Valid()
      modifies this, fs
      ensures Valid() && fs.Valid() && fs.dirs == old(fs.dirs)
      ensures !ValidSectionName(sectionName) ==>
        reply == Message(400, InvalidSection) && subjects == old(subjects) && fs.files == old(fs.files)
      ensures ValidSectionName(sectionName) && old(Owned(id, teacherId)).None? ==>
        reply == Message(404, SubjectNotFound) && subjects == old(subjects) && fs.files == old(fs.files)
      ensures ValidSectionName(sectionName) && old(Owned(id, teacherId)).Some? ==>
        var s := old(subjects)[id];
        var slot := GetSlot(s, sectionName).value;
        && (slot.fileName == "" ==> reply == Record(200, s) && subjects == old(subjects) && fs.files == old(fs.files))
        && (slot.fileName != "" && LookupPath(slot.fileName) in old(fs.dirs) ==>
              reply == Message(500, ServerError) && subjects == old(subjects) && fs.files == old(fs.files))
        && (slot.fileName != "" && LookupPath(slot.fileName) !in old(fs.dirs) ==>
              var saved := SetSlot(s, sectionName, ClearedSlot(slot));
              && reply == Record(200, saved) && subjects == old(subjects)[id := saved]
              && fs.files == old(fs.files) - {LookupPath(slot.fileName)})
    {
      if !ValidSectionName(sectionName) {
        return Message(400, InvalidSection);
      }
      var found := Owned(id, teacherId);
      if found.None? {
        return Message(404, SubjectNotFound);
      }
      reply := ClearSectionFile(fs, found.value, sectionName);
    }

    /** The part of the file-delete handler after the subject is found. */
    method ClearSectionFile(fs: FileSystem, s: Subject, sectionName: string) returns (reply: Reply)
      requires Valid() && fs.Valid() && IsSlotName(sectionName) && s.id in subjects && subjects[s.id] == s
      modifies this, fs
      ensures Valid() && fs.Valid() && fs.dirs == old(fs.dirs)
      ensures var slot := GetSlot(s, sectionName).value;
        && (slot.fileName == "" ==> reply == Record(200, s) && subjects == old(subjects) && fs.files == old(fs.files))
        && (slot.fileName != "" && LookupPath(slot.fileName) in old(fs.dirs) ==>
              reply == Message(500, ServerError) && subjects == old(subjects) && fs.files == old(fs.files))
        && (slot.fileName != "" && LookupPath(slot.fileName) !in old(fs.dirs) ==>
              var saved := SetSlot(s, sectionName, ClearedSlot(slot));
              && reply == Record(200, saved) && subjects == old(subjects)[s.id := saved]
              && fs.files == old(fs.files) - {LookupPath(slot.fileName)})
    {
      var slot := GetSlot(s, sectionName).value;
      if slot.fileName == "" {
        return Record(200, s);
      }
      var ok := UnlinkIfExists(fs, LookupPath(slot.fileName));
      if !ok {
        return Message(500, ServerError);
      }
      var saved := SetSlot(s, sectionName, ClearedSlot(slot));
      SetSlotKeepsValid(subjects, s.id, sectionName, ClearedSlot(slot));
      subjects := subjects[s.id := saved];
      reply := Record(200, saved);
    }

    /** `GET /api/subjects/:id/download-merged-pdf`: 404 for a subject the
        teacher does not own, 400 when no section has a file name, and
        otherwise the merge of the candidates. */
    method DownloadMerged(fs: FileSystem, id: string, teacherId: string, now: nat, convert: Path -> bool, loads: Path -> bool)
      returns (reply: MergeReply)
      requires fs.Valid()
      modifies fs
      ensures fs.Valid()
      ensures Owned(id, teacherId).None? ==>
        reply == MergeError(404, SubjectNotFound, []) && fs.dirs == old(fs.dirs) && fs.files == old(fs.files)
      ensures Owned(id, teacherId).Some? && MergeCandidates(subjects[id], SectionNames) == [] ==>
        reply == MergeError(400, NoFilesToMerge, []) && fs.dirs == old(fs.dirs) && fs.files == old(fs.files)
      ensures Owned(id, teacherId).Some? && MergeCandidates(subjects[id], SectionNames) != [] ==>
        MergeOutcome(old(fs.files), old(fs.dirs), fs.files, fs.dirs, subjects[id],
                     MergeCandidates(subjects[id], SectionNames), now, convert, loads, reply)
    {
      var found := Owned(id, teacherId);
      if found.None? {
        return MergeError(404, SubjectNotFound, []);
      }
      var s := found.value;
      var candidates := MergeCandidates(s, SectionNames);
      if candidates == [] {
        return MergeError(400, NoFilesToMerge, []);
      }
      reply := MergeSubject(fs, s, candidates, now, convert, loads);
    }
  }

  /** `if (fs.existsSync(p)) fs.unlinkSync(p)`: a missing path is left
      alone, a file is removed, and a directory makes the unlink throw. */
  method UnlinkIfExists(fs: FileSystem, p: Path) returns (ok: bool)
    requires fs.Valid()
    modifies fs
    ensures fs.Valid() && fs.dirs == old(fs.dirs)
    ensures ok <==> p !in old(fs.dirs)
    ensures ok ==> fs.files == old(fs.files) - {p}
    ensures !ok ==> fs.files == old(fs.files)
  {
    ok := true;
    if fs.Exists(p) {
      ok := fs.Unlink(p);
    }
  }

  /** What the merge of the candidates leaves on disk and replies. Once there
      is a candidate the merge fails only when the merger throws on a path
      it is handed (a ".pdf" candidate that is a directory, or a file it
      cannot load) or the output cannot be written; it succeeds even when
      every candidate was skipped. `dirs` already holds the temp directory when the
      disk had room for it. */
  ghost predicate MergeOutcome(files0: set<Path>, dirs0: set<Path>, files: set<Path>, dirs: set<Path>,
                               s: Subject, candidates: seq<string>, now: nat, convert: Path -> bool, loads: Path -> bool,
                               reply: MergeReply)
  {
    var parts := Contributions(s, candidates, files0, dirs, now, convert, loads);
    var name := MergedFileName(s.subjectName, s.subjectCode, now);
    var output: Path := ["temp", name];
    && dirs == dirs0 + (if ["temp"] in files0 then {} else {["temp"]})
    && files0 <= files
    && (reply.Download? <==> Broken !in parts && ["temp"] in dirs && output !in dirs)
    && (reply.Download? ==>
          && reply == Download(Appended(parts), output, name, Converted(parts) + [output])
          && files == files0 + SetOf(Converted(parts)) + {output})
    && (!reply.Download? ==> reply.status == 500 && reply.message == MergeFailed)
    && (!reply.Download? && Broken !in parts ==>
          reply.scheduled == Converted(parts) && files == files0 + SetOf(Converted(parts)))
    && (Broken in parts ==>
          exists k :: StoppedMerge(s, candidates, parts, k, files0, dirs, files, now, convert, reply.scheduled))
  }

  /** The merge stopped at candidate `k`, the first whose part breaks: the
      temporary PDFs converted and added before it stay on disk with their
      deletion scheduled, and so does candidate `k`'s own temporary PDF
      when it was written before the merger rejected it. */
  ghost predicate StoppedMerge(s: Subject, candidates: seq<string>, parts: seq<Part>, k: nat,
                               files0: set<Path>, dirs: set<Path>, files: set<Path>, now: nat,
                               convert: Path -> bool, scheduled: seq<Path>)
  {
    && k < |parts| && k < |candidates| && parts[k] == Broken && Broken !in parts[..k]
    && scheduled == Converted(parts[..k])
    && files == files0 + SetOf(Converted(parts[..k]))
                + (if TempWritten(candidates[k], SlotFile(s, candidates[k]), files0, dirs, now, convert)
                   then {TempPdfPath(candidates[k], now)} else {})
  }

  /** The merge proper: make sure of the temp directory, gather the parts,
      write the merged file. */
  method MergeSubject(fs: FileSystem, s: Subject, candidates: seq<string>, now: nat, convert: Path -> bool, loads: Path -> bool)
    returns (reply: MergeReply)
    requires fs.Valid()
    modifies fs
    ensures fs.Valid()
    ensures MergeOutcome(old(fs.files), old(fs.dirs), fs.files, fs.dirs, s, candidates, now, convert, loads, reply)
  {
    var tempDir: Path := ["temp"];
    EnsureTempDir(fs);
    var ok, appended, scheduled := AppendSections(fs, s, candidates, now, convert, loads);
    if !ok {
      return MergeError(500, MergeFailed, scheduled);
    }
    var outputFileName := MergedFileName(s.subjectName, s.subjectCode, now);
    var outputPath: Path := ["temp", outputFileName];
    assert Parent(outputPath) == tempDir;
    var saved := fs.WriteFile(outputPath);
    if !saved {
      return MergeError(500, MergeFailed, scheduled);
    }
    reply := Download(appended, outputPath, outputFileName, scheduled + [outputPath]);
  }

  /** `if (!fs.existsSync(tempDir)) fs.mkdirSync(tempDir, { recursive: true })`:
      a file named "temp" makes the mkdir fail and leaves the disk as it was. */
  method EnsureTempDir(fs: FileSystem)
    requires fs.Valid()
    modifies fs
    ensures fs.Valid() && fs.files == old(fs.files)
    ensures fs.dirs == old(fs.dirs) + (if ["temp"] in old(fs.files) then {} else {["temp"]})
  {
    var tempDir: Path := ["temp"];
    if !fs.Exists(tempDir) {
      var _ := fs.MkdirRecursive(tempDir);
      assert Prefixes(tempDir) == {tempDir};
    }
  }

  /** The loop over the candidates: what each one hands to the merger, and
      the temporary PDFs written and scheduled for deletion on the way. `ok`
      is false when the merger throws on a path it is handed: a ".pdf"
      candidate that is a directory, or a file it cannot load. */
  method AppendSections(fs: FileSystem, s: Subject, candidates: seq<string>, now: nat, convert: Path -> bool, loads: Path -> bool)
    returns (ok: bool, appended: seq<Path>, scheduled: seq<Path>)
    requires fs.Valid()
    modifies fs
    ensures fs.Valid() && fs.dirs == old(fs.dirs) && old(fs.files) <= fs.files
    ensures var parts := Contributions(s, candidates, old(fs.files), old(fs.dirs), now, convert, loads);
      && (ok <==> Broken !in parts)
      && (ok ==> appended == Appended(parts) && scheduled == Converted(parts)
                 && fs.files == old(fs.files) + SetOf(scheduled))
      && (!ok ==> exists k :: StoppedMerge(s, candidates, parts, k, old(fs.files), old(fs.dirs), fs.files,
                                           now, convert, scheduled))
  {
    ghost var F0, D0 := fs.files, fs.dirs;
    ghost var parts := Contributions(s, candidates, F0, D0, now, convert, loads);
    appended, scheduled := [], [];
    assert parts[..0] == [];
    for i := 0 to |candidates|
      invariant fs.Valid() && fs.dirs == D0
      invariant Broken !in parts[..i]
      invariant appended == Appended(parts[..i])
      invariant scheduled == Converted(parts[..i])
      invariant fs.files == F0 + SetOf(scheduled)
    {
      PartsSnoc(parts, i);
      ContributionsAt(s, candidates, F0, D0, now, convert, loads, i);
      var part, added := AppendStep(fs, s, candidates[i], now, convert, loads, F0, scheduled);
      if part == Broken {
        assert Broken in parts;
        assert StoppedMerge(s, candidates, parts, i, F0, D0, fs.files, now, convert, scheduled);
        return false, appended, scheduled;
      }
      appended := appended + (if part.Append? then [part.path] else []);
      scheduled := scheduled + added;
    }
    assert parts[..|candidates|] == parts;
    ok := true;
  }

  /** Growing the contributions by one part. */
  lemma PartsSnoc(parts: seq<Part>, i: nat)
    requires i < |parts|
    ensures Appended(parts[..i + 1]) == Appended(parts[..i]) + (if parts[i].Append? then [parts[i].path] else [])
    ensures Converted(parts[..i + 1]) == Converted(parts[..i])
      + (if parts[i].Append? && |parts[i].path| == 2 && parts[i].path[0] == "temp" then [parts[i].path] else [])
    ensures Broken in parts[..i + 1] <==> Broken in parts[..i] || parts[i] == Broken
  {
    assert parts[..i + 1][..i] == parts[..i];
    assert parts[..i + 1] == parts[..i] + [parts[i]];
  }

  /** One turn of the loop: a ".pdf" file is added as is, a converted Word
      file is added and scheduled for deletion. When the merger throws, a
      temporary PDF already written stays on disk. */
  method AppendStep(fs: FileSystem, s: Subject, name: string, now: nat, convert: Path -> bool, loads: Path -> bool,
                    ghost files0: set<Path>, scheduled: seq<Path>)
    returns (part: Part, added: seq<Path>)
    requires fs.Valid() && fs.files == files0 + SetOf(scheduled)
    requires forall q :: q in scheduled ==> |q| == 2 && q[0] == "temp"
    modifies fs
    ensures fs.Valid() && fs.dirs == old(fs.dirs)
    ensures part == Contribution(name, SlotFile(s, name), files0, old(fs.dirs), now, convert, loads)
    ensures added == if part.Append? && |part.path| == 2 && part.path[0] == "temp" then [part.path] else []
    ensures old(fs.files) <= fs.files
    ensures part != Broken ==> fs.files == files0 + SetOf(scheduled + added)
    ensures part == Broken ==>
      fs.files == files0 + SetOf(scheduled)
                  + (if TempWritten(name, SlotFile(s, name), files0, old(fs.dirs), now, convert)
                     then {TempPdfPath(name, now)} else {})
  {
    ContributionIgnoresTempFiles(name, SlotFile(s, name), files0, SetOf(scheduled), fs.dirs, now, convert, loads);
    part := AppendOne(fs, name, SlotFile(s, name), now, convert, loads);
    added := if part.Append? && |part.path| == 2 && part.path[0] == "temp" then [part.path] else [];
    assert LookupPath(SlotFile(s, name))[0] == "uploads";
    SetOfConcat(scheduled, added);
    if part != Broken {
      assert SetOf(added) == if part.Append? && part.path != LookupPath(SlotFile(s, name)) then {part.path} else {};
    }
  }

  /** One candidate's turn in the loop: its contribution, and the temporary
      PDF written when a Word file is converted. */
  method AppendOne(fs: FileSystem, name: string, fileName: string, now: nat, convert: Path -> bool, loads: Path -> bool)
    returns (part: Part)
    requires fs.Valid()
    modifies fs
    ensures fs.Valid() && fs.dirs == old(fs.dirs)
    ensures part == Contribution(name, fileName, old(fs.files), old(fs.dirs), now, convert, loads)
    ensures old(fs.files) <= fs.files
    ensures part != Broken ==>
      fs.files == old(fs.files) + (if part.Append? && part.path != LookupPath(fileName) then {part.path} else {})
    ensures part == Broken ==>
      fs.files == old(fs.files) + (if TempWritten(name, fileName, old(fs.files), old(fs.dirs), now, convert)
                                   then {TempPdfPath(name, now)} else {})
  {
    var filePath := LookupPath(fileName);
    if !fs.Exists(filePath) {
      return Skip;
    }
    var ext := ToLower(UploadMiddleware.ExtName(fileName));
    if ext == ".pdf" {
      if filePath !in fs.files || !loads(filePath) {
        // merger.add throws on a directory or a file it cannot read
        return Broken;
      }
      return Append(filePath);
    } else if ext == ".doc" || ext == ".docx" {
      var tempPdfPath := TempPdfPath(name, now);
      assert Parent(tempPdfPath) == ["temp"] && tempPdfPath != filePath;
      var converted := false;
      if filePath in fs.files && convert(filePath) {
        converted := fs.WriteFile(tempPdfPath);
      }
      if converted {
        if !loads(tempPdfPath) {
          return Broken;
        }
        return Append(tempPdfPath);
      }
      return Skip;
    }
    return Skip;
  }

  /** The temporary PDFs written during the merge do not change what a
      later candidate, looked up under "uploads", contributes. */
  lemma ContributionIgnoresTempFiles(name: string, fileName: string, files: set<Path>, extra: set<Path>,
                                     dirs: set<Path>, now: nat, convert: Path -> bool, loads: Path -> bool)
    requires forall q :: q in extra ==> |q| == 2 && q[0] == "temp"
    ensures Contribution(name, fileName, files + extra, dirs, now, convert, loads)
         == Contribution(name, fileName, files, dirs, now, convert, loads)
  {
    assert LookupPath(fileName) !in extra;
  }

  /** The file filter's rejection, as upload.js words it. */
  const FilterRejection: string := "Only PDF and Word documents are allowed!"
  /** multer's message for its `LIMIT_FILE_SIZE` error. */
  const SizeRejection: string := "File too large"

  /** The message of the error multer hands to Express's default handler:
      the filter's and the size limit's are fixed texts; what the
      destination callback throws is Node's own error, which the model
      leaves open. */
  function UploadErrorMessage(e: UploadMiddleware.UploadError): (r: Option<string>)
    ensures r.None? <==> e.DestinationFailed?
    ensures e.WrongType? ==> r == Some(FilterRejection)
    ensures e.TooLarge? ==> r == Some(SizeRejection)
  {
    match e
    case WrongType => Some(FilterRejection)
    case TooLarge => Some(SizeRejection)
    case DestinationFailed => None
  }
}
