/** The cover-page helpers: the title formatting of a cover page, the
    merge of cover pages in front of an uploaded PDF with the clean-up of
    the temporary cover files, the "first section" rule that decides whether
    a subject cover is added, and the file information handed back to the
    caller. Rendering and PDF concatenation are opaque: a cover is its
    title, font size and subtitle, a merged document the sequence of paths
    appended to the merger. */
module PdfUtils {
  import opened Common
  import opened Disk
  import opened SubjectModel
  import UploadMiddleware

  // ---------------------------------------------------------------------
  // Title formatting

  /** `[A-Z]` */
  predicate IsUpperAscii(c: char)
  {
    'A' <= c <= 'Z'
  }

  /** `text.split(/(?=[A-Z])/)`: the text cut in front of every ASCII
      upper-case letter except one at index 0 (a zero-width match where the
      previous piece ends is skipped); the empty text gives one empty piece. */
  function SplitBeforeUpper(t: string): (r: seq<string>)
    ensures |r| >= 1
  {
    if |t| <= 1 then [t]
    else
      var ps := SplitBeforeUpper(t[..|t| - 1]);
      var c := t[|t| - 1];
      if IsUpperAscii(c) then ps + [[c]]
      else ps[..|ps| - 1] + [ps[|ps| - 1] + [c]]
  }

  /** `pieces.join(sep)` */
  function Join(ps: seq<string>, sep: string): string
  {
    if ps == [] then ""
    else if |ps| == 1 then ps[0]
    else Join(ps[..|ps| - 1], sep) + sep + ps[|ps| - 1]
  }

  /** The pieces laid end to end. */
  function Concat(ps: seq<string>): string
  {
    if ps == [] then "" else Concat(ps[..|ps| - 1]) + ps[|ps| - 1]
  }

  /** The formatted title: camelCase cut into words, joined with spaces and
      upper-cased. */
  function FormatTitle(text: string): string
  {
    ToUpper(Join(SplitBeforeUpper(text), " "))
  }

  /** Reference reading of the title, character by character: a space in
      front of every upper-case letter past index 0. */
  function Spaced(t: string): string
  {
    if |t| <= 1 then t
    else Spaced(t[..|t| - 1]) + (if IsUpperAscii(t[|t| - 1]) then " " else "") + [t[|t| - 1]]
  }

  /** The upper-case letters past index 0: one space is inserted for each. */
  function UpperAfterFirst(t: string): nat
  {
    if |t| <= 1 then 0
    else UpperAfterFirst(t[..|t| - 1]) + (if IsUpperAscii(t[|t| - 1]) then 1 else 0)
  }

  /** The split loses nothing: the pieces put together give the text back. */
  lemma {:induction false} SplitBeforeUpperRoundTrip(t: string)
    ensures Concat(SplitBeforeUpper(t)) == t
    decreases |t|
  {
    if |t| > 1 {
      var init := t[..|t| - 1];
      var c := t[|t| - 1];
      var ps := SplitBeforeUpper(init);
      SplitBeforeUpperRoundTrip(init);
      assert init + [c] == t;
      if IsUpperAscii(c) {
        assert (ps + [[c]])[..|ps|] == ps;
      } else {
        ConcatExtendLast(ps, c);
      }
    }
  }

  /** Adding a character to the last piece adds it to the end of the text. */
  lemma ConcatExtendLast(ps: seq<string>, c: char)
    requires |ps| >= 1
    ensures Concat(ps[..|ps| - 1] + [ps[|ps| - 1] + [c]]) == Concat(ps) + [c]
  {
    var r := ps[..|ps| - 1] + [ps[|ps| - 1] + [c]];
    assert r[..|r| - 1] == ps[..|ps| - 1];
  }

  /** Pieces cut in front of upper-case letters: every piece after the first
      starts with one, and no piece has one past its first character. */
  predicate CutBeforeUpper(r: seq<string>)
  {
    && (forall k :: 0 < k < |r| ==> r[k] != "" && IsUpperAscii(r[k][0]))
    && (forall k, j :: 0 <= k < |r| && 0 < j < |r[k]| ==> !IsUpperAscii(r[k][j]))
  }

  /** The split cuts exactly in front of the upper-case letters past index 0. */
  lemma {:induction false} SplitBeforeUpperCuts(t: string)
    ensures CutBeforeUpper(SplitBeforeUpper(t))
    decreases |t|
  {
    if |t| > 1 {
      var init := t[..|t| - 1];
      var c := t[|t| - 1];
      var ps := SplitBeforeUpper(init);
      SplitBeforeUpperCuts(init);
      var r := SplitBeforeUpper(t);
      if IsUpperAscii(c) {
        assert r == ps + [[c]];
        forall k, j | 0 <= k < |r| && 0 < j < |r[k]|
          ensures !IsUpperAscii(r[k][j])
        {
          assert k < |ps| && r[k] == ps[k];
        }
      } else {
        var last := ps[|ps| - 1] + [c];
        assert r == ps[..|ps| - 1] + [last];
        forall k | 0 < k < |r|
          ensures r[k] != "" && IsUpperAscii(r[k][0])
        {
          if k < |r| - 1 {
            assert r[k] == ps[k];
          } else {
            assert r[k][0] == ps[k][0];
          }
        }
        forall k, j | 0 <= k < |r| && 0 < j < |r[k]|
          ensures !IsUpperAscii(r[k][j])
        {
          if k == |r| - 1 && j == |r[k]| - 1 {
            assert r[k][j] == c;
          } else if k == |r| - 1 {
            assert r[k][j] == ps[k][j];
          } else {
            assert r[k] == ps[k];
          }
        }
      }
    }
  }

  /** Joining the pieces with spaces is the character-level reading. */
  lemma {:induction false} JoinSplitIsSpaced(t: string)
    ensures Join(SplitBeforeUpper(t), " ") == Spaced(t)
    decreases |t|
  {
    if |t| > 1 {
      var init := t[..|t| - 1];
      var c := t[|t| - 1];
      var ps := SplitBeforeUpper(init);
      JoinSplitIsSpaced(init);
      if IsUpperAscii(c) {
        var r := ps + [[c]];
        assert r[..|r| - 1] == ps;
      } else {
        var last := ps[|ps| - 1] + [c];
        var r := ps[..|ps| - 1] + [last];
        assert r[..|r| - 1] == ps[..|ps| - 1];
        if |ps| > 1 {
          assert Join(ps, " ") == Join(ps[..|ps| - 1], " ") + " " + ps[|ps| - 1];
        }
      }
    }
  }

  /** The title grows by one space per upper-case letter past index 0. */
  lemma {:induction false} FormatTitleLength(text: string)
    ensures |FormatTitle(text)| == |text| + UpperAfterFirst(text)
    decreases |text|
  {
    JoinSplitIsSpaced(text);
    SpacedLength(text);
  }

  lemma {:induction false} SpacedLength(t: string)
    ensures |Spaced(t)| == |t| + UpperAfterFirst(t)
    decreases |t|
  {
    if |t| > 1 {
      SpacedLength(t[..|t| - 1]);
    }
  }

  /** A name without inner capitals is only upper-cased. */
  lemma {:induction false} FormatTitleWithoutCapitals(text: string)
    requires forall i :: 0 < i < |text| ==> !IsUpperAscii(text[i])
    ensures FormatTitle(text) == ToUpper(text)
    decreases |text|
  {
    JoinSplitIsSpaced(text);
    SpacedWithoutCapitals(text);
  }

  lemma {:induction false} SpacedWithoutCapitals(t: string)
    requires forall i :: 0 < i < |t| ==> !IsUpperAscii(t[i])
    ensures Spaced(t) == t
    decreases |t|
  {
    if |t| > 1 {
      SpacedWithoutCapitals(t[..|t| - 1]);
      assert t[..|t| - 1] + [t[|t| - 1]] == t;
    }
  }

  /** A lower-case word followed by a capitalised one is titled as the two
      upper-cased words with a space between. */
  lemma TwoWordTitle(a: string, b: string)
    requires a != [] && forall i :: 0 < i < |a| ==> !IsUpperAscii(a[i])
    requires b != [] && IsUpperAscii(b[0]) && forall i :: 0 < i < |b| ==> !IsUpperAscii(b[i])
    ensures FormatTitle(a + b) == ToUpper(a) + " " + ToUpper(b)
  {
    SpacedWithoutCapitals(a);
    SpacedAppendWord(a, b);
    JoinSplitIsSpaced(a + b);
    ToUpperConcat(a + " ", b);
    ToUpperConcat(a, " ");
  }

  /** "academicCalendar" becomes "ACADEMIC CALENDAR". */
  lemma AcademicCalendarTitle(text: string)
    requires text == "academicCalendar"
    ensures FormatTitle(text) == "ACADEMIC CALENDAR"
  {
    var a, b := text[..8], text[8..];
    assert a + b == text;
    AcademicCalendarWords(text);
    TwoWordTitle(a, b);
    AcademicCalendarUpper(text);
  }

  /** The two words of "academicCalendar" meet the shape `TwoWordTitle` needs. */
  lemma AcademicCalendarWords(text: string)
    requires text == "academicCalendar"
    ensures |text| == 16
    ensures forall i :: 0 < i < 8 ==> !IsUpperAscii(text[i])
    ensures IsUpperAscii(text[8]) && forall i :: 8 < i < 16 ==> !IsUpperAscii(text[i])
  {
  }

  /** The two words of "academicCalendar", upper-cased and spaced. */
  lemma AcademicCalendarUpper(text: string)
    requires text == "academicCalendar"
    ensures ToUpper(text[..8]) + " " + ToUpper(text[8..]) == "ACADEMIC CALENDAR"
  {
    AcademicUpper(text[..8]);
    CalendarUpper(text[8..]);
    assert "ACADEMIC" + " " + "CALENDAR" == "ACADEMIC CALENDAR";
  }

  lemma AcademicUpper(w: string)
    requires w == "academic"
    ensures ToUpper(w) == "ACADEMIC"
  {
    var u := ToUpper(w);
    forall i | 0 <= i < 8
      ensures u[i] == "ACADEMIC"[i]
    {
      assert u[i] == UpperChar(w[i]);
    }
  }

  lemma CalendarUpper(w: string)
    requires w == "Calendar"
    ensures ToUpper(w) == "CALENDAR"
  {
    var u := ToUpper(w);
    forall i | 0 <= i < 8
      ensures u[i] == "CALENDAR"[i]
    {
      assert u[i] == UpperChar(w[i]);
    }
  }

  /** Upper-casing works piece by piece. */
  lemma ToUpperConcat(x: string, y: string)
    ensures ToUpper(x + y) == ToUpper(x) + ToUpper(y)
  {
    assert forall i :: 0 <= i < |x| + |y| ==> (x + y)[i] == if i < |x| then x[i] else y[i - |x|];
  }

  /** Appending a capitalised word without inner capitals to a non-empty
      text adds one space and the word. */
  lemma {:induction false} SpacedAppendWord(a: string, w: string)
    requires a != [] && w != [] && IsUpperAscii(w[0])
    requires forall i :: 0 < i < |w| ==> !IsUpperAscii(w[i])
    ensures Spaced(a + w) == Spaced(a) + " " + w
    decreases |w|
  {
    var t := a + w;
    assert t[..|t| - 1] == a + w[..|w| - 1];
    if |w| == 1 {
      assert t[..|t| - 1] == a;
    } else {
      SpacedAppendWord(a, w[..|w| - 1]);
      assert w[..|w| - 1] + [w[|w| - 1]] == w;
    }
  }

  // ---------------------------------------------------------------------
  // Cover pages

  /** What a rendered cover page shows: the formatted title in bold at the
      given size, and for a subject cover the subtitle in 16 point. */
  datatype CoverPage = CoverPage(title: string, fontSize: nat, subtitle: Option<string>)

  /** The buffer `createCoverPage` resolves with: the rendered page, or the
      empty buffer it falls back to when rendering throws. */
  datatype CoverBuffer = Rendered(page: CoverPage) | EmptyBuffer

  const SectionCoverFontSize: nat := 28
  const SubjectCoverFontSize: nat := 36
  const SubtitleFontSize: nat := 16
  const Subtitle: string := "Course Materials"

  /** `createCoverPage(text, fontSize, isSubjectPage)`; `renders` says
      whether jsPDF gets through without throwing. The promise never
      rejects: a failure gives the empty buffer. */
  function CreateCoverPage(text: string, fontSize: nat, isSubjectPage: bool, renders: bool): (r: CoverBuffer)
    ensures r.EmptyBuffer? <==> !renders
    ensures r.Rendered? ==> r.page.title == FormatTitle(text) && r.page.fontSize == fontSize
    ensures r.Rendered? ==> (r.page.subtitle.Some? <==> isSubjectPage)
    ensures r.Rendered? && r.page.subtitle.Some? ==> r.page.subtitle.value == Subtitle
  {
    if !renders then EmptyBuffer
    else Rendered(CoverPage(FormatTitle(text), fontSize, if isSubjectPage then Some(Subtitle) else None))
  }

  // ---------------------------------------------------------------------
  // Merging the covers in front of an uploaded PDF

  /** `path.join(tempDir, 'temp-<now>-<random>.pdf')` */
  function TempCoverPath(tempDir: Path, now: nat, random: string): Path
  {
    tempDir + ["temp-" + Decimal(now) + "-" + random + ".pdf"]
  }

  /** `path.join(tempDir, 'merged-<now>.pdf')` */
  function MergedPath(tempDir: Path, now: nat): Path
  {
    tempDir + ["merged-" + Decimal(now) + ".pdf"]
  }

  /** The directory holding the original: `path.dirname`. */
  function DirName(p: Path): Path
    requires p != []
  {
    p[..|p| - 1]
  }

  /** The paths laid end to end in the merged document: the subject cover
      when this is the first section of a named subject, the section cover,
      then the original. */
  function MergeOrder(original: Path, withSubject: bool, subjectCover: Path, sectionCover: Path): (r: seq<Path>)
    ensures |r| == if withSubject then 3 else 2
    ensures r[|r| - 1] == original && r[|r| - 2] == sectionCover
    ensures withSubject ==> r[0] == subjectCover
  {
    (if withSubject then [subjectCover] else []) + [sectionCover, original]
  }

  /** `fs.writeFile(p)` succeeds: p is not a directory and its directory exists. */
  predicate Writable(dirs: set<Path>, p: Path)
  {
    p != [] && p !in dirs && (|p| == 1 || Parent(p) in dirs)
  }

  /** When `mergePdfWithCover` resolves: every cover renders and can be
      written, the original is a file (it may be one of the covers just
      written, should the names coincide) that the merger can load, and the
      merged file can be written. */
  predicate MergeSucceeds(files: set<Path>, dirs: set<Path>, original: Path, withSubject: bool,
                          subjectCover: Path, sectionCover: Path, merged: Path,
                          renders: bool, loads: Path -> bool)
  {
    && renders
    && (withSubject ==> Writable(dirs, subjectCover))
    && Writable(dirs, sectionCover)
    && (original in files || original == sectionCover || (withSubject && original == subjectCover))
    && loads(original)
    && Writable(dirs, merged)
  }

  function SetOf(ps: seq<Path>): set<Path>
  {
    set p | p in ps
  }

  /** `mergePdfWithCover(originalPdfPath, sectionName, subjectName, isFirstSection)`.
      `now` stands for `Date.now()`, `random1`/`random2` for the two random
      suffixes, `renders` for jsPDF getting through, `loads` for the merger
      being able to read a file. Returns the original path, now holding the
      merged document, or `None` when the merge throws; `parts` is what the
      merger appended, `temps` the cover files written. Whether it resolves
      or throws, every cover file written is unlinked afterwards. */
  method MergePdfWithCover(fs: FileSystem, originalPdfPath: Path, sectionName: string, subjectName: string,
                           isFirstSection: bool, now: nat, random1: string, random2: string,
                           renders: bool, loads: Path -> bool)
    returns (result: Option<Path>, parts: seq<Path>, temps: seq<Path>)
    requires fs.Valid() && originalPdfPath != []
    modifies fs
    ensures fs.Valid() && fs.dirs == old(fs.dirs)
    ensures var tempDir := DirName(originalPdfPath);
      var withSubject := isFirstSection && subjectName != "";
      var subjectCover := TempCoverPath(tempDir, now, random1);
      var sectionCover := TempCoverPath(tempDir, now, random2);
      var merged := MergedPath(tempDir, now);
      && (result.Some? <==> MergeSucceeds(old(fs.files), old(fs.dirs), originalPdfPath, withSubject,
                                           subjectCover, sectionCover, merged, renders, loads))
      && (result.Some? ==> result.value == originalPdfPath
                           && parts == MergeOrder(originalPdfPath, withSubject, subjectCover, sectionCover)
                           && fs.files == (old(fs.files) - {merged} + {originalPdfPath}) - SetOf(temps))
      && (result.None? ==> fs.files == old(fs.files) - SetOf(temps))
      && (forall t :: t in temps ==> t == subjectCover || t == sectionCover)
    ensures SetOf(temps) !! fs.files
  {
    var tempDir := DirName(originalPdfPath);
    var withSubject := isFirstSection && subjectName != "";
    var subjectCover := TempCoverPath(tempDir, now, random1);
    var sectionCover := TempCoverPath(tempDir, now, random2);
    var merged := MergedPath(tempDir, now);
    var ok: bool;
    ok, parts, temps := AddCovers(fs, tempDir, subjectName, sectionName, withSubject, subjectCover, sectionCover, renders);
    if ok {
      // the original PDF
      ok := originalPdfPath in fs.files && loads(originalPdfPath);
      if ok {
        parts := parts + [originalPdfPath];
        ok := SaveOverOriginal(fs, originalPdfPath, merged);
      }
    }
    ghost var before := fs.files;
    // finally: unlink every cover written, swallowing errors
    UnlinkAll(fs, temps);
    assert fs.files == before - SetOf(temps);
    result := if ok then Some(originalPdfPath) else None;
  }

  /** `merger.save(mergedPath)` then `fs.rename(mergedPath, originalPdfPath)`:
      the merged file is written beside the original and renamed over it.
      The rename cannot fail once the write has gone through, since both
      paths share a directory and the original is a file. */
  method SaveOverOriginal(fs: FileSystem, original: Path, merged: Path) returns (ok: bool)
    requires fs.Valid() && original in fs.files
    requires |merged| == |original| && merged[..|merged| - 1] == DirName(original)
    modifies fs
    ensures fs.Valid() && fs.dirs == old(fs.dirs)
    ensures ok <==> Writable(old(fs.dirs), merged)
    ensures fs.files == if ok then old(fs.files) - {merged} + {original} else old(fs.files)
  {
    ok := fs.WriteFile(merged);
    if ok {
      assert Parent(original) == Parent(merged);
      ok := fs.Rename(merged, original);
      assert ok;
    }
  }

  /** The covers' part of the merge: write each cover to its temp file and
      append it. `ok` is false once a write fails (the file is then not
      recorded) or the merger cannot load an empty buffer. */
  method AddCovers(fs: FileSystem, tempDir: Path, subjectName: string, sectionName: string, withSubject: bool,
                   subjectCover: Path, sectionCover: Path, renders: bool)
    returns (ok: bool, parts: seq<Path>, temps: seq<Path>)
    requires fs.Valid()
    requires |subjectCover| == |tempDir| + 1 && subjectCover[..|tempDir|] == tempDir
    requires |sectionCover| == |tempDir| + 1 && sectionCover[..|tempDir|] == tempDir
    modifies fs
    ensures fs.Valid() && fs.dirs == old(fs.dirs)
    ensures fs.files == old(fs.files) + SetOf(temps)
    ensures forall t :: t in temps ==> t == subjectCover || t == sectionCover
    ensures ok <==> renders && (withSubject ==> Writable(old(fs.dirs), subjectCover)) && Writable(old(fs.dirs), sectionCover)
    ensures ok ==> parts == (if withSubject then [subjectCover] else []) + [sectionCover] && temps == parts
  {
    parts, temps := [], [];
    ok := true;
    if withSubject {
      var cover := CreateCoverPage(subjectName, SubjectCoverFontSize, true, renders);
      var written := fs.WriteFile(subjectCover);
      if written {
        temps := temps + [subjectCover];
      }
      ok := written && cover.Rendered?;
      if ok {
        parts := parts + [subjectCover];
      }
    }
    if ok {
      var cover := CreateCoverPage(sectionName, SectionCoverFontSize, false, renders);
      var written := fs.WriteFile(sectionCover);
      if written {
        temps := temps + [sectionCover];
      }
      ok := written && cover.Rendered?;
      if ok {
        parts := parts + [sectionCover];
      }
    }
  }

  /** `Promise.all(tempFiles.map(f => fs.unlink(f).catch(...)))`: every listed
      file is gone afterwards, a failed unlink is ignored, and nothing else
      changes. */
  method UnlinkAll(fs: FileSystem, paths: seq<Path>)
    requires fs.Valid()
    modifies fs
    ensures fs.Valid() && fs.dirs == old(fs.dirs)
    ensures fs.files == old(fs.files) - SetOf(paths)
  {
    for i := 0 to |paths|
      invariant fs.Valid() && fs.dirs == old(fs.dirs)
      invariant fs.files == old(fs.files) - SetOf(paths[..i])
    {
      assert SetOf(paths[..i + 1]) == SetOf(paths[..i]) + {paths[i]} by {
        assert paths[..i + 1] == paths[..i] + [paths[i]];
      }
      var _ := fs.Unlink(paths[i]);
    }
    assert paths[..|paths|] == paths;
  }

  // ---------------------------------------------------------------------
  // The first-section rule and the upload result

  /** The section names `handlePdfUploadWithCover` scans, in its order. */
  const SectionFields: seq<string> := [
    "academicCalendar", "testSchedules", "listOfHolidays", "subjectAllocation",
    "individualClassTimeTable", "listOfRegisteredStudents", "courseSyllabus",
    "lessonPlan", "unitWiseHandOuts", "unitWiseLectureNotes", "contentOfTopicsBeyondSyllabus",
    "tutorialScripts", "questionBank", "previousQuestionPapers", "sampleQuestionPapers",
    "modelQuestionPapers", "assignmentQuestions", "internalAssessmentQuestionPapers",
    "studentAttendance", "internalMarks", "remedialClasses", "slowLearnersList",
    "advancedLearnersList", "industryExpertLectures", "coPoMapping", "coAttainment",
    "poAttainment", "courseExitSurvey", "studentFeedback", "peerReview",
    "selfAppraisal", "timetable", "lessonplan", "midsheets"
  ]

  /** `subject[field]?.fileName` is truthy: only the three schema slots exist
      on a record, and an empty file name is falsy. */
  predicate HasFile(s: Subject, name: string)
  {
    GetSlot(s, name).Some? && GetSlot(s, name).value.fileName != ""
  }

  /** The first-section rule: no listed section other than this one has a file. */
  predicate NoOtherSectionHasFile(s: Subject, sectionName: string)
  {
    forall n :: n in SectionFields && n != sectionName ==> !HasFile(s, n)
  }

  /** The scan with its `hasAnyFile` flag and early `break`, over the
      listed section names. */
  method IsFirstSection(s: Subject, sectionName: string) returns (first: bool)
    ensures first <==> NoOtherSectionHasFile(s, sectionName)
  {
    first := ScanFields(s, sectionName, SectionFields);
  }

  /** The loop of the scan, over any list of names: it stops at the first
      other name whose section has a file. */
  method ScanFields(s: Subject, sectionName: string, fields: seq<string>) returns (first: bool)
    ensures first <==> forall n :: n in fields && n != sectionName ==> !HasFile(s, n)
  {
    var hasAnyFile := false;
    var i := 0;
    while i < |fields|
      invariant 0 <= i <= |fields|
      invariant !hasAnyFile ==> forall k :: 0 <= k < i ==> fields[k] == sectionName || !HasFile(s, fields[k])
      invariant hasAnyFile ==> exists n :: n in fields && n != sectionName && HasFile(s, n)
    {
      var field := fields[i];
      if field != sectionName && HasFile(s, field) {
        hasAnyFile := true;
        break;
      }
      i := i + 1;
    }
    first := !hasAnyFile;
  }

  /** Of the 34 listed names only the three schema slots can hold a file, so
      the rule reads: the other schema slots have empty file names. */
  lemma FirstSectionReadsSchemaSlots(s: Subject, sectionName: string)
    ensures NoOtherSectionHasFile(s, sectionName) <==>
      forall n :: IsSlotName(n) && n != sectionName ==> GetSlot(s, n).value.fileName == ""
  {
    assert SectionFields[31] == "timetable" && SectionFields[32] == "lessonplan" && SectionFields[33] == "midsheets";
    if NoOtherSectionHasFile(s, sectionName) {
      forall n | IsSlotName(n) && n != sectionName
        ensures GetSlot(s, n).value.fileName == ""
      {
        assert n in SectionFields;
      }
    }
  }

  /** The section's own earlier file never matters: replacing its slot does
      not change the rule. */
  lemma OwnFileIgnored(s: Subject, sectionName: string, slot: SectionSlot)
    requires IsSlotName(sectionName)
    ensures NoOtherSectionHasFile(SetSlot(s, sectionName, slot), sectionName) == NoOtherSectionHasFile(s, sectionName)
  {
    var s' := SetSlot(s, sectionName, slot);
    forall n | n != sectionName
      ensures HasFile(s', n) == HasFile(s, n)
    {
      assert GetSlot(s', n) == GetSlot(s, n);
    }
  }

  /** The file information the upload returns. */
  datatype FileInfo = FileInfo(fileName: string, fileUrl: string, uploadedAt: nat)

  /** `/uploads/<academicYear>/<department>/<facultyId>/<subject id>/<filename>` */
  function FileUrl(academicYear: string, department: string, facultyId: string, subjectId: string,
                   filename: string): string
  {
    "/uploads/" + academicYear + "/" + department + "/" + facultyId + "/" + subjectId + "/" + filename
  }

  /** A path written as a URL path: each segment after a slash. */
  function UrlOf(p: Path): string
  {
    if p == [] then "" else UrlOf(p[..|p| - 1]) + "/" + p[|p| - 1]
  }

  /** The returned URL names the stored file: it is the URL of the path the
      upload middleware stored it under, when the teacher's subject is this
      subject and the request's academic year is the subject's. */
  lemma FileUrlNamesStoredFile(teacher: UploadMiddleware.TeacherInfo, bodyYear: Option<string>,
                               s: Subject, filename: string)
    requires teacher.subjectId == Some(s.id)
    requires UploadMiddleware.AcademicYearOf(bodyYear) == s.academicYear
    requires teacher.department != "" && teacher.facultyId != "" && s.id != ""
    ensures var dest := UploadMiddleware.DestinationPath(Some(teacher), bodyYear);
      dest.Some? && UrlOf(dest.value + [filename]) == FileUrl(s.academicYear, teacher.department, teacher.facultyId, s.id, filename)
  {
    var y := UploadMiddleware.AcademicYearOf(bodyYear);
    var d, f, i := teacher.department, teacher.facultyId, s.id;
    var full := ["uploads", y, d, f, i, filename];
    assert UploadMiddleware.DestinationPath(Some(teacher), bodyYear).value + [filename] == full by {
      assert "" !in [y, d, f, i];
    }
    assert UrlOf(full) == FileUrl(y, d, f, i, filename) by {
      UploadsUrl(y, d, f, i, filename);
    }
  }

  /** The URL of the path of a stored file. */
  lemma UploadsUrl(y: string, d: string, f: string, i: string, n: string)
    ensures UrlOf(["uploads", y, d, f, i, n]) == FileUrl(y, d, f, i, n)
  {
    var p1: Path := [] + ["uploads"];
    UrlOfSnoc([], "uploads");
    var p2 := p1 + [y];
    UrlOfSnoc(p1, y);
    var p3 := p2 + [d];
    UrlOfSnoc(p2, d);
    var p4 := p3 + [f];
    UrlOfSnoc(p3, f);
    var p5 := p4 + [i];
    UrlOfSnoc(p4, i);
    var p6 := p5 + [n];
    UrlOfSnoc(p5, n);
    assert p6 == ["uploads", y, d, f, i, n];
    assert "" + "/" + "uploads" + "/" == "/uploads/";
  }

  lemma UrlOfSnoc(p: Path, x: string)
    ensures UrlOf(p + [x]) == UrlOf(p) + "/" + x
  {
    assert (p + [x])[..|p|] == p;
  }

  /** `handlePdfUploadWithCover(file, sectionName, subject, teacher)`: PDF
      uploads get their covers merged in front (the subject cover only for
      the first section of a named subject); Word files are left as they are.
      `None` when the merge throws. `parts` is what the merger appended and
      `temps` the cover files written, both empty for a Word file. */
  method HandlePdfUploadWithCover(fs: FileSystem, file: UploadMiddleware.StoredFile, sectionName: string,
                                  s: Subject, department: string, facultyId: string,
                                  now: nat, random1: string, random2: string,
                                  renders: bool, loads: Path -> bool)
    returns (info: Option<FileInfo>, parts: seq<Path>, temps: seq<Path>)
    requires fs.Valid()
    modifies fs
    ensures fs.Valid() && fs.dirs == old(fs.dirs)
    ensures info.Some? ==>
      info.value == FileInfo(file.filename, FileUrl(s.academicYear, department, facultyId, s.id, file.filename), now)
    ensures file.mimetype != UploadMiddleware.PdfType ==>
      info.Some? && parts == [] && temps == [] && fs.files == old(fs.files)
    ensures file.mimetype == UploadMiddleware.PdfType ==>
      var original := file.destination + [file.filename];
      var tempDir := file.destination;
      var withSubject := NoOtherSectionHasFile(s, sectionName) && s.subjectName != "";
      var subjectCover := TempCoverPath(tempDir, now, random1);
      var sectionCover := TempCoverPath(tempDir, now, random2);
      var merged := MergedPath(tempDir, now);
      && (info.Some? <==> MergeSucceeds(old(fs.files), old(fs.dirs), original, withSubject,
                                         subjectCover, sectionCover, merged, renders, loads))
      && (info.Some? ==> parts == MergeOrder(original, withSubject, subjectCover, sectionCover)
                         && fs.files == (old(fs.files) - {merged} + {original}) - SetOf(temps))
      && (info.None? ==> fs.files == old(fs.files) - SetOf(temps))
      && (forall t :: t in temps ==> t == subjectCover || t == sectionCover)
    ensures SetOf(temps) !! fs.files
  {
    var filePath := file.destination + [file.filename];
    assert DirName(filePath) == file.destination;
    var isFirstSection := IsFirstSection(s, sectionName);
    parts, temps := [], [];
    if file.mimetype == UploadMiddleware.PdfType {
      var merged;
      merged, parts, temps := MergePdfWithCover(fs, filePath, sectionName, s.subjectName, isFirstSection,
                                                now, random1, random2, renders, loads);
      if merged.None? {
        return None, parts, temps;
      }
    }
    info := Some(FileInfo(file.filename, FileUrl(s.academicYear, department, facultyId, s.id, file.filename), now));
  }
}
