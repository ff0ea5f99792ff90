/** The subject record of the Mongoose schema: seven required string fields
    (all but the teacher reference trimmed), a semester restricted to '1' or
    '2', three fixed section slots with their defaults, and a creation time. */
module SubjectModel {
  import opened Common

  /** A section slot. `uploadedAt` is a time in milliseconds, `None` for null. */
  datatype SectionSlot = SectionSlot(description: string, fileName: string, fileUrl: string, uploadedAt: Option<nat>)

  datatype Subject = Subject(
    id: string,
    teacher: string,
    academicYear: string,
    year: string,
    semester: string,
    subjectCode: string,
    subjectName: string,
    regulation: string,
    timetable: SectionSlot,
    lessonplan: SectionSlot,
    midsheets: SectionSlot,
    createdAt: nat)

  const TimetableDescription: string :=
    "Upload your class timetable here. Include class timings, room numbers, and schedule details."
  const LessonplanDescription: string :=
    "Upload your lesson plan here. Include topics, objectives, teaching methods, and assessment strategies."
  const MidsheetsDescription: string :=
    "Upload your mid-semester sheets here. Include question papers, answer keys, and evaluation criteria."

  /** The names of the three slots the schema declares. */
  predicate IsSlotName(name: string)
  {
    name == "timetable" || name == "lessonplan" || name == "midsheets"
  }

  /** The slot a new record starts with. */
  function DefaultSlot(name: string): (slot: SectionSlot)
    requires IsSlotName(name)
    ensures slot.fileName == "" && slot.fileUrl == "" && slot.uploadedAt == None
  {
    var description :=
      if name == "timetable" then TimetableDescription
      else if name == "lessonplan" then LessonplanDescription
      else MidsheetsDescription;
    SectionSlot(description, "", "", None)
  }

  /** `subject[name]`: a slot for the three schema paths, undefined for any other name. */
  function GetSlot(s: Subject, name: string): (r: Option<SectionSlot>)
    ensures r.Some? <==> IsSlotName(name)
  {
    if name == "timetable" then Some(s.timetable)
    else if name == "lessonplan" then Some(s.lessonplan)
    else if name == "midsheets" then Some(s.midsheets)
    else None
  }

  /** The record with one slot replaced. */
  function SetSlot(s: Subject, name: string, slot: SectionSlot): (r: Subject)
    requires IsSlotName(name)
    ensures GetSlot(r, name) == Some(slot)
    ensures forall n :: n != name ==> GetSlot(r, n) == GetSlot(s, n)
    ensures r.(timetable := s.timetable, lessonplan := s.lessonplan, midsheets := s.midsheets) == s
  {
    if name == "timetable" then s.(timetable := slot)
    else if name == "lessonplan" then s.(lessonplan := slot)
    else s.(midsheets := slot)
  }

  /** The `trim: true` setters applied to the string fields. */
  function Normalize(s: Subject): Subject
  {
    s.(academicYear := Trim(s.academicYear), year := Trim(s.year), semester := Trim(s.semester),
       subjectCode := Trim(s.subjectCode), subjectName := Trim(s.subjectName), regulation := Trim(s.regulation))
  }

  /** `required: true` on every field and `enum: ['1', '2']` on the semester. */
  predicate Conforms(s: Subject)
  {
    && s.teacher != "" && s.academicYear != "" && s.year != "" && s.semester != ""
    && s.subjectCode != "" && s.subjectName != "" && s.regulation != ""
    && (s.semester == "1" || s.semester == "2")
  }

  /** What `save()` stores: the normalized record, or `None` for a validation error. */
  function Save(s: Subject): (r: Option<Subject>)
    ensures r.Some? <==> Conforms(Normalize(s))
    ensures r.Some? ==> r.value == Normalize(s)
  {
    var n := Normalize(s);
    if Conforms(n) then Some(n) else None
  }

  /** `new Subject({...})`: the given fields, three default slots and the creation time. */
  function NewSubject(id: string, teacher: string, academicYear: string, year: string, semester: string,
                      subjectCode: string, subjectName: string, regulation: string, now: nat): Subject
  {
    Subject(id, teacher, academicYear, year, semester, subjectCode, subjectName, regulation,
            DefaultSlot("timetable"), DefaultSlot("lessonplan"), DefaultSlot("midsheets"), now)
  }

  lemma {:induction false} TrimStartIdempotent(s: string)
    ensures TrimStart(TrimStart(s)) == TrimStart(s)
  {
    if |s| > 0 && IsJsSpace(s[0]) {
      TrimStartIdempotent(s[1..]);
    }
  }

  lemma TrimIdempotent(s: string)
    ensures Trim(Trim(s)) == Trim(s)
  {
    var t := TrimEnd(TrimStart(s));
    TrimHasNoOuterSpace(s);
    assert TrimStart(t) == t;
  }

  /** A new record is stored exactly when every required field is non-blank
      and the trimmed semester is '1' or '2'. */
  lemma NewSubjectAccepted(id: string, teacher: string, academicYear: string, year: string, semester: string,
                           subjectCode: string, subjectName: string, regulation: string, now: nat)
    ensures Save(NewSubject(id, teacher, academicYear, year, semester, subjectCode, subjectName, regulation, now)).Some?
      <==> && teacher != "" && !AllSpace(academicYear) && !AllSpace(year) && !AllSpace(subjectCode)
           && !AllSpace(subjectName) && !AllSpace(regulation) && (Trim(semester) == "1" || Trim(semester) == "2")
  {
    TrimEmptyIffAllSpace(academicYear);
    TrimEmptyIffAllSpace(year);
    TrimEmptyIffAllSpace(subjectCode);
    TrimEmptyIffAllSpace(subjectName);
    TrimEmptyIffAllSpace(regulation);
  }

  /** A stored new record has trimmed fields, its creation time and the three
      default slots: no file, no URL, no upload time, the slot's own description. */
  lemma NewSubjectDefaults(id: string, teacher: string, academicYear: string, year: string, semester: string,
                           subjectCode: string, subjectName: string, regulation: string, now: nat)
    requires Save(NewSubject(id, teacher, academicYear, year, semester, subjectCode, subjectName, regulation, now)).Some?
    ensures var r := Save(NewSubject(id, teacher, academicYear, year, semester, subjectCode, subjectName, regulation, now)).value;
      && r.academicYear == Trim(academicYear) && r.subjectCode == Trim(subjectCode) && r.createdAt == now
      && r.timetable == SectionSlot(TimetableDescription, "", "", None)
      && r.lessonplan == SectionSlot(LessonplanDescription, "", "", None)
      && r.midsheets == SectionSlot(MidsheetsDescription, "", "", None)
  {
  }

  /** Saving a stored record again changes nothing. */
  lemma SaveIdempotent(s: Subject)
    requires Save(s).Some?
    ensures Save(Save(s).value) == Save(s)
  {
    TrimIdempotent(s.academicYear);
    TrimIdempotent(s.year);
    TrimIdempotent(s.semester);
    TrimIdempotent(s.subjectCode);
    TrimIdempotent(s.subjectName);
    TrimIdempotent(s.regulation);
  }

  /** A string `trim` leaves as it is. */
  predicate NoOuterSpace(x: string)
  {
    x == [] || (!IsJsSpace(x[0]) && !IsJsSpace(x[|x| - 1]))
  }

  /** A record as `save()` leaves it: conforming, with every trimmed field trimmed. */
  predicate Settled(s: Subject)
  {
    && Conforms(s)
    && NoOuterSpace(s.academicYear) && NoOuterSpace(s.year) && NoOuterSpace(s.semester)
    && NoOuterSpace(s.subjectCode) && NoOuterSpace(s.subjectName) && NoOuterSpace(s.regulation)
  }

  lemma TrimKeepsNoOuterSpace(x: string)
    requires NoOuterSpace(x)
    ensures Trim(x) == x
  {
    assert TrimStart(x) == x;
  }

  /** What `save()` stores is settled. */
  lemma SavedIsSettled(s: Subject)
    requires Save(s).Some?
    ensures Settled(Save(s).value)
  {
    TrimHasNoOuterSpace(s.academicYear);
    TrimHasNoOuterSpace(s.year);
    TrimHasNoOuterSpace(s.semester);
    TrimHasNoOuterSpace(s.subjectCode);
    TrimHasNoOuterSpace(s.subjectName);
    TrimHasNoOuterSpace(s.regulation);
  }

  /** Saving a settled record stores it unchanged. */
  lemma SettledSavesUnchanged(s: Subject)
    requires Settled(s)
    ensures Save(s) == Some(s)
  {
    TrimKeepsNoOuterSpace(s.academicYear);
    TrimKeepsNoOuterSpace(s.year);
    TrimKeepsNoOuterSpace(s.semester);
    TrimKeepsNoOuterSpace(s.subjectCode);
    TrimKeepsNoOuterSpace(s.subjectName);
    TrimKeepsNoOuterSpace(s.regulation);
  }

  /** Each slot's default description is its own text. */
  lemma DefaultDescriptionsDiffer()
    ensures DefaultSlot("timetable").description != DefaultSlot("lessonplan").description
    ensures DefaultSlot("lessonplan").description != DefaultSlot("midsheets").description
    ensures DefaultSlot("timetable").description != DefaultSlot("midsheets").description
  {
    assert |TimetableDescription| == 92 && |LessonplanDescription| == 102 && |MidsheetsDescription| == 100;
  }
}
