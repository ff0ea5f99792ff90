/** The sections panel of one subject: the catalog of 23 course-file
    sections it lists, the editor of one section (its description and an
    optional PDF or Word file), the "has files" test behind the merged-PDF
    button, and the name the merged PDF is saved under. The subject is the
    object the server sent, seen through what the panel reads of it. */
module SubjectSections {
  import opened Common
  import SubjectModel

  /** The sections of the catalog, in the order they are listed. */
  datatype Section =
    | AcademicCalendar | TestSchedules | ListOfHolidays | SubjectAllocation | IndividualClassTimeTable
    | ListOfRegisteredStudents | CourseSyllabus | LessonPlan | UnitWiseHandOuts | UnitWiseLectureNotes
    | ContentOfTopicsBeyondSyllabus | TutorialScripts | QuestionBank | PreviousQuestionPapers
    | InternalEvaluation1 | InternalEvaluation2 | OverallInternalEvaluationMarks
    | SemesterEndExaminationQuestionPaper | ResultAnalysis | InnovativeMethodsEmployed
    | RecordOfAttendanceAndAssessment | StudentFeedbackReport | RecordOfAttainmentOfCourseOutcomes

  const Catalog: seq<Section> := [
    AcademicCalendar, TestSchedules, ListOfHolidays, SubjectAllocation, IndividualClassTimeTable,
    ListOfRegisteredStudents, CourseSyllabus, LessonPlan, UnitWiseHandOuts, UnitWiseLectureNotes,
    ContentOfTopicsBeyondSyllabus, TutorialScripts, QuestionBank, PreviousQuestionPapers,
    InternalEvaluation1, InternalEvaluation2, OverallInternalEvaluationMarks,
    SemesterEndExaminationQuestionPaper, ResultAnalysis, InnovativeMethodsEmployed,
    RecordOfAttendanceAndAssessment, StudentFeedbackReport, RecordOfAttainmentOfCourseOutcomes]

  /** The key under which the subject holds a section. */
  function Name(x: Section): string
  {
    match x
    case AcademicCalendar => "academicCalendar"
    case TestSchedules => "testSchedules"
    case ListOfHolidays => "listOfHolidays"
    case SubjectAllocation => "subjectAllocation"
    case IndividualClassTimeTable => "individualClassTimeTable"
    case ListOfRegisteredStudents => "listOfRegisteredStudents"
    case CourseSyllabus => "courseSyllabus"
    case LessonPlan => "lessonPlan"
    case UnitWiseHandOuts => "unitWiseHandOuts"
    case UnitWiseLectureNotes => "unitWiseLectureNotes"
    case ContentOfTopicsBeyondSyllabus => "contentOfTopicsBeyondSyllabus"
    case TutorialScripts => "tutorialScripts"
    case QuestionBank => "questionBank"
    case PreviousQuestionPapers => "previousQuestionPapers"
    case InternalEvaluation1 => "internalEvaluation1"
    case InternalEvaluation2 => "internalEvaluation2"
    case OverallInternalEvaluationMarks => "overallInternalEvaluationMarks"
    case SemesterEndExaminationQuestionPaper => "semesterEndExaminationQuestionPaper"
    case ResultAnalysis => "resultAnalysis"
    case InnovativeMethodsEmployed => "innovativeMethodsEmployed"
    case RecordOfAttendanceAndAssessment => "recordOfAttendanceAndAssessment"
    case StudentFeedbackReport => "studentFeedbackReport"
    case RecordOfAttainmentOfCourseOutcomes => "recordOfAttainmentOfCourseOutcomes"
  }

  /** The heading shown for a section. */
  function Title(x: Section): string
  {
    match x
    case AcademicCalendar => "Academic Calendar"
    case TestSchedules => "Test Schedules"
    case ListOfHolidays => "List of Holidays"
    case SubjectAllocation => "Subject Allocation"
    case IndividualClassTimeTable => "Individual Class Time Table"
    case ListOfRegisteredStudents => "List of Registered Students"
    case CourseSyllabus => "Course Syllabus along with Text Books and References"
    case LessonPlan => "Lesson Plan including Topics Planned Beyond Syllabus and Tutorials"
    case UnitWiseHandOuts => "Unit Wise Hand-outs"
    case UnitWiseLectureNotes => "Unit-Wise Lecture Notes"
    case ContentOfTopicsBeyondSyllabus => "Content of Topics Beyond the Syllabus"
    case TutorialScripts => "Tutorial Scripts"
    case QuestionBank => "Question Bank"
    case PreviousQuestionPapers => "Previous Question papers of Sem End Examination"
    case InternalEvaluation1 => "Internal Evaluation 1"
    case InternalEvaluation2 => "Internal Evaluation 2"
    case OverallInternalEvaluationMarks => "Overall Internal Evaluation Marks"
    case SemesterEndExaminationQuestionPaper => "Semester End Examination Question Paper"
    case ResultAnalysis => "Result Analysis"
    case InnovativeMethodsEmployed => "Innovative Methods Employed in Teaching learning Process"
    case RecordOfAttendanceAndAssessment => "Record of Attendance and Assessment"
    case StudentFeedbackReport => "Student Feedback Report"
    case RecordOfAttainmentOfCourseOutcomes => "Record of Attainment of Course Outcomes"
  }

  /** The description shown while the subject has none of its own. */
  function DefaultDescription(x: Section): string
  {
    match x
    case AcademicCalendar =>
      "Upload the official academic calendar showing important dates, semester schedules, examination periods, and academic milestones for the current academic year."
    case TestSchedules =>
      "Provide detailed schedules for all internal assessments, unit tests, mid-term examinations, and other evaluation activities planned for this subject."
    case ListOfHolidays =>
      "Include the official list of holidays, festival breaks, and non-working days that may affect the class schedule and academic activities."
    case SubjectAllocation =>
      "Document the subject allocation details including faculty assignment, class sections, and teaching load distribution for this course."
    case IndividualClassTimeTable =>
      "Upload the specific timetable for this subject showing class timings, room allocations, and weekly schedule for lectures, tutorials, and practicals."
    case ListOfRegisteredStudents =>
      "Maintain an updated list of all students registered for this subject including their roll numbers, names, and contact information."
    case CourseSyllabus =>
      "Provide the complete course syllabus with unit-wise topics, prescribed textbooks, reference materials, and recommended reading list."
    case LessonPlan =>
      "Create detailed lesson plans covering all syllabus topics, additional enrichment topics beyond syllabus, tutorial sessions, and practical activities."
    case UnitWiseHandOuts =>
      "Prepare and upload unit-wise handouts, study materials, quick reference guides, and supplementary notes for student distribution."
    case UnitWiseLectureNotes =>
      "Upload comprehensive lecture notes organized by units covering all topics taught in class with detailed explanations and examples."
    case ContentOfTopicsBeyondSyllabus =>
      "Document additional topics, advanced concepts, and enrichment materials taught beyond the prescribed syllabus to enhance student learning."
    case TutorialScripts =>
      "Provide tutorial scripts, problem-solving sessions, practical exercises, and step-by-step solutions for better understanding of concepts."
    case QuestionBank =>
      "Maintain a comprehensive question bank with various types of questions including objective, short answer, and long answer questions for practice."
    case PreviousQuestionPapers =>
      "Archive previous semester end examination question papers to help students understand exam patterns and prepare effectively."
    case InternalEvaluation1 =>
      "i. Descriptive Question Paper\n\nii. Quiz Question Paper\n\niii. Assignment Question Paper\n\niv. Scheme of Evaluation of Descriptive Question\n\nv. Sample Answer scripts of Descriptive, Quiz and Assignment\n\nvi. Consolidated marks of Internal Evaluations 1"
    case InternalEvaluation2 =>
      "i. Descriptive Question Paper\n\nii. Quiz Question Paper\n\niii. Assignment Question Paper\n\niv. Scheme of Evaluation of Descriptive Question\n\nv. Sample Answer scripts of Descriptive, Quiz and Assignment\n\nvi. Consolidated marks of Internal Evaluations 2"
    case OverallInternalEvaluationMarks =>
      "Compile consolidated internal evaluation marks combining all assessments with statistical analysis and grade distribution."
    case SemesterEndExaminationQuestionPaper =>
      "Upload the final semester end examination question paper with marking scheme and model answers for reference."
    case ResultAnalysis =>
      "Provide detailed analysis of examination results including pass percentage, grade distribution, and performance trends with recommendations."
    case InnovativeMethodsEmployed =>
      "Document innovative teaching methodologies, technology integration, interactive sessions, and creative approaches used to enhance learning."
    case RecordOfAttendanceAndAssessment =>
      "Maintain detailed records of student attendance, continuous assessment marks, assignment submissions, and participation in class activities."
    case StudentFeedbackReport =>
      "Compile student feedback reports including course evaluation, teaching effectiveness, suggestions for improvement, and action taken."
    case RecordOfAttainmentOfCourseOutcomes =>
      "Document the attainment of course outcomes with evidence, assessment mapping, and analysis of learning objectives achievement."
  }

  /** The position of a section in the catalog. */
  function Position(x: Section): (i: nat)
    ensures i < |Catalog| && Catalog[i] == x
  {
    match x
    case AcademicCalendar => 0
    case TestSchedules => 1
    case ListOfHolidays => 2
    case SubjectAllocation => 3
    case IndividualClassTimeTable => 4
    case ListOfRegisteredStudents => 5
    case CourseSyllabus => 6
    case LessonPlan => 7
    case UnitWiseHandOuts => 8
    case UnitWiseLectureNotes => 9
    case ContentOfTopicsBeyondSyllabus => 10
    case TutorialScripts => 11
    case QuestionBank => 12
    case PreviousQuestionPapers => 13
    case InternalEvaluation1 => 14
    case InternalEvaluation2 => 15
    case OverallInternalEvaluationMarks => 16
    case SemesterEndExaminationQuestionPaper => 17
    case ResultAnalysis => 18
    case InnovativeMethodsEmployed => 19
    case RecordOfAttendanceAndAssessment => 20
    case StudentFeedbackReport => 21
    case RecordOfAttainmentOfCourseOutcomes => 22
  }

  /** The catalog lists every section exactly once, 23 in all. */
  lemma CatalogListsEverySectionOnce()
    ensures |Catalog| == 23
    ensures forall x :: x in Catalog
    ensures forall i :: 0 <= i < |Catalog| ==> Position(Catalog[i]) == i
    ensures forall i, j :: 0 <= i < j < |Catalog| ==> Catalog[i] != Catalog[j]
  {
    forall x ensures x in Catalog {
      assert Catalog[Position(x)] == x;
    }
    forall i | 0 <= i < |Catalog| ensures Position(Catalog[i]) == i {
    }
  }

  // Why the keys are told apart through fingerprints: the verifier sees a
  // string literal as a sequence of characters, and separating two of them
  // means finding a position where they differ. `NamesDistinct` with an
  // empty body does verify, but the 253 pairs of keys cost between about
  // half and four fifths of the resource limit depending on the solver's
  // seed. Read off the length and the two end characters of each key once
  // (NameLength, NameStart, NameEnd). Those 23 triples are distinct, so each
  // pair becomes a comparison of small values and every proof step stays
  // cheap.

  /** Length, first and last character of a section's key. */
  function Fingerprint(x: Section): (nat, char, char)
  {
    match x
    case AcademicCalendar => (16, 'a', 'r')
    case TestSchedules => (13, 't', 's')
    case ListOfHolidays => (14, 'l', 's')
    case SubjectAllocation => (17, 's', 'n')
    case IndividualClassTimeTable => (24, 'i', 'e')
    case ListOfRegisteredStudents => (24, 'l', 's')
    case CourseSyllabus => (14, 'c', 's')
    case LessonPlan => (10, 'l', 'n')
    case UnitWiseHandOuts => (16, 'u', 's')
    case UnitWiseLectureNotes => (20, 'u', 's')
    case ContentOfTopicsBeyondSyllabus => (29, 'c', 's')
    case TutorialScripts => (15, 't', 's')
    case QuestionBank => (12, 'q', 'k')
    case PreviousQuestionPapers => (22, 'p', 's')
    case InternalEvaluation1 => (19, 'i', '1')
    case InternalEvaluation2 => (19, 'i', '2')
    case OverallInternalEvaluationMarks => (30, 'o', 's')
    case SemesterEndExaminationQuestionPaper => (35, 's', 'r')
    case ResultAnalysis => (14, 'r', 's')
    case InnovativeMethodsEmployed => (25, 'i', 'd')
    case RecordOfAttendanceAndAssessment => (31, 'r', 't')
    case StudentFeedbackReport => (21, 's', 't')
    case RecordOfAttainmentOfCourseOutcomes => (34, 'r', 's')
  }

  /** The section a fingerprint belongs to. */
  function FingerprintOwner(f: (nat, char, char)): Option<Section>
  {
    if f == (16, 'a', 'r') then Some(AcademicCalendar)
    else if f == (13, 't', 's') then Some(TestSchedules)
    else if f == (14, 'l', 's') then Some(ListOfHolidays)
    else if f == (17, 's', 'n') then Some(SubjectAllocation)
    else if f == (24, 'i', 'e') then Some(IndividualClassTimeTable)
    else if f == (24, 'l', 's') then Some(ListOfRegisteredStudents)
    else if f == (14, 'c', 's') then Some(CourseSyllabus)
    else if f == (10, 'l', 'n') then Some(LessonPlan)
    else if f == (16, 'u', 's') then Some(UnitWiseHandOuts)
    else if f == (20, 'u', 's') then Some(UnitWiseLectureNotes)
    else if f == (29, 'c', 's') then Some(ContentOfTopicsBeyondSyllabus)
    else if f == (15, 't', 's') then Some(TutorialScripts)
    else if f == (12, 'q', 'k') then Some(QuestionBank)
    else if f == (22, 'p', 's') then Some(PreviousQuestionPapers)
    else if f == (19, 'i', '1') then Some(InternalEvaluation1)
    else if f == (19, 'i', '2') then Some(InternalEvaluation2)
    else if f == (30, 'o', 's') then Some(OverallInternalEvaluationMarks)
    else if f == (35, 's', 'r') then Some(SemesterEndExaminationQuestionPaper)
    else if f == (14, 'r', 's') then Some(ResultAnalysis)
    else if f == (25, 'i', 'd') then Some(InnovativeMethodsEmployed)
    else if f == (31, 'r', 't') then Some(RecordOfAttendanceAndAssessment)
    else if f == (21, 's', 't') then Some(StudentFeedbackReport)
    else if f == (34, 'r', 's') then Some(RecordOfAttainmentOfCourseOutcomes)
    else None
  }

  /** Each key has the length listed for its section. */
  lemma NameLength(x: Section)
    ensures |Name(x)| == Fingerprint(x).0
  {
  }

  /** Each key starts with the character listed for its section. */
  lemma NameStart(x: Section)
    ensures |Name(x)| > 0 && Name(x)[0] == Fingerprint(x).1
  {
    match x
    case AcademicCalendar =>
    case TestSchedules =>
    case ListOfHolidays =>
    case SubjectAllocation =>
    case IndividualClassTimeTable =>
    case ListOfRegisteredStudents =>
    case CourseSyllabus =>
    case LessonPlan =>
    case UnitWiseHandOuts =>
    case UnitWiseLectureNotes =>
    case ContentOfTopicsBeyondSyllabus =>
    case TutorialScripts =>
    case QuestionBank =>
    case PreviousQuestionPapers =>
    case InternalEvaluation1 =>
    case InternalEvaluation2 =>
    case OverallInternalEvaluationMarks =>
    case SemesterEndExaminationQuestionPaper =>
    case ResultAnalysis =>
    case InnovativeMethodsEmployed =>
    case RecordOfAttendanceAndAssessment =>
    case StudentFeedbackReport =>
    case RecordOfAttainmentOfCourseOutcomes =>
  }

  /** Each key ends with the character listed for its section. */
  lemma NameEnd(x: Section)
    ensures |Name(x)| > 0 && Name(x)[|Name(x)| - 1] == Fingerprint(x).2
  {
    match x
    case AcademicCalendar =>
    case TestSchedules =>
    case ListOfHolidays =>
    case SubjectAllocation =>
    case IndividualClassTimeTable =>
    case ListOfRegisteredStudents =>
    case CourseSyllabus =>
    case LessonPlan =>
    case UnitWiseHandOuts =>
    case UnitWiseLectureNotes =>
    case ContentOfTopicsBeyondSyllabus =>
    case TutorialScripts =>
    case QuestionBank =>
    case PreviousQuestionPapers =>
    case InternalEvaluation1 =>
    case InternalEvaluation2 =>
    case OverallInternalEvaluationMarks =>
    case SemesterEndExaminationQuestionPaper =>
    case ResultAnalysis =>
    case InnovativeMethodsEmployed =>
    case RecordOfAttendanceAndAssessment =>
    case StudentFeedbackReport =>
    case RecordOfAttainmentOfCourseOutcomes =>
  }

  /** Each key has the fingerprint listed for its section. */
  lemma NameFingerprint(x: Section)
    ensures |Name(x)| > 0
    ensures (|Name(x)|, Name(x)[0], Name(x)[|Name(x)| - 1]) == Fingerprint(x)
  {
    NameLength(x);
    NameStart(x);
    NameEnd(x);
  }

  /** Each fingerprint leads back to its section. */
  lemma FingerprintOwned(x: Section)
    ensures FingerprintOwner(Fingerprint(x)) == Some(x)
  {
  }

  /** Distinct sections are kept under distinct keys. */
  lemma NamesDistinct(x: Section, y: Section)
    requires x != y
    ensures Name(x) != Name(y)
  {
    var nx, ny := Name(x), Name(y);
    NameFingerprint(x);
    NameFingerprint(y);
    FingerprintsDiffer(x, y);
    assert (|nx|, nx[0], nx[|nx| - 1]) != (|ny|, ny[0], ny[|ny| - 1]);
  }

  /** Distinct sections have distinct fingerprints. */
  lemma FingerprintsDiffer(x: Section, y: Section)
    requires x != y
    ensures Fingerprint(x) != Fingerprint(y)
  {
    FingerprintOwned(x);
    FingerprintOwned(y);
  }

  /** The keys of the catalog's sections are pairwise distinct. */
  lemma CatalogNamesDistinct()
    ensures forall i, j :: 0 <= i < j < |Catalog| ==> Name(Catalog[i]) != Name(Catalog[j])
  {
    CatalogListsEverySectionOnce();
    forall i, j | 0 <= i < j < |Catalog|
      ensures Name(Catalog[i]) != Name(Catalog[j])
    {
      NamesDistinct(Catalog[i], Catalog[j]);
    }
  }

  /** What the panel reads of one section of the subject: both fields may
      be absent. */
  datatype ClientSlot = ClientSlot(description: Option<string>, fileName: Option<string>)

  /** What the panel reads of the subject: its id, the two parts of the
      default download name (absent ones print as "undefined"), and the
      sections it holds, by key. */
  datatype ClientSubject = ClientSubject(id: string, subjectName: Option<string>, subjectId: Option<string>,
                                         slots: map<string, ClientSlot>)

  /** `subject[section.name]?.description || section.defaultDescription` */
  function ShownDescription(subject: ClientSubject, x: Section): (text: string)
    ensures Name(x) in subject.slots && Truthy(subject.slots[Name(x)].description) ==>
              text == subject.slots[Name(x)].description.value
    ensures !(Name(x) in subject.slots && Truthy(subject.slots[Name(x)].description)) ==>
              text == DefaultDescription(x)
  {
    var key := Name(x);
    if key in subject.slots && Truthy(subject.slots[key].description) then subject.slots[key].description.value
    else DefaultDescription(x)
  }

  /** `subject[section.name]?.fileName && subject[section.name].fileName.trim() !== ''` */
  predicate HasFile(subject: ClientSubject, x: Section)
  {
    Name(x) in subject.slots && subject.slots[Name(x)].fileName.Some?
    && Trim(subject.slots[Name(x)].fileName.value) != ""
  }

  /** `sections.some(...)` over a list of sections. */
  function SomeHasFile(subject: ClientSubject, sections: seq<Section>): (r: bool)
  {
    if sections == [] then false
    else HasFile(subject, sections[0]) || SomeHasFile(subject, sections[1..])
  }

  /** `some` is true exactly when one of the listed sections has a
      non-blank file name. */
  lemma {:induction false} SomeHasFileIff(subject: ClientSubject, sections: seq<Section>)
    ensures SomeHasFile(subject, sections) <==> exists x :: x in sections && HasFile(subject, x)
  {
    if sections != [] {
      SomeHasFileIff(subject, sections[1..]);
      assert forall x :: x in sections <==> x == sections[0] || x in sections[1..];
    }
  }

  /** `hasFilesToDownload` */
  predicate HasFilesToDownload(subject: ClientSubject)
  {
    SomeHasFile(subject, Catalog)
  }

  /** The merged-PDF button is offered exactly when some section of the
      catalog holds a file whose name is not blank. */
  lemma HasFilesToDownloadIff(subject: ClientSubject)
    ensures HasFilesToDownload(subject) <==> exists x :: HasFile(subject, x)
  {
    SomeHasFileIff(subject, Catalog);
    CatalogListsEverySectionOnce();
  }

  /** A file name made of white space does not count. */
  lemma BlankFileNameDoesNotCount(subject: ClientSubject, x: Section)
    requires Name(x) in subject.slots && subject.slots[Name(x)].fileName.Some?
    requires AllSpace(subject.slots[Name(x)].fileName.value)
    ensures !HasFile(subject, x)
  {
    TrimEmptyIffAllSpace(subject.slots[Name(x)].fileName.value);
  }

  /** The slot as the server serializes it. */
  function FromSlot(slot: SubjectModel.SectionSlot): (c: ClientSlot)
    ensures c.description == Some(slot.description) && c.fileName == Some(slot.fileName)
  {
    ClientSlot(Some(slot.description), Some(slot.fileName))
  }

  /** A stored subject as the server sends it: its three slots under their
      own keys, and no `subjectId` field (the schema names it `subjectCode`). */
  function FromServer(s: SubjectModel.Subject): (c: ClientSubject)
    ensures c.id == s.id && c.subjectName == Some(s.subjectName) && c.subjectId == None
    ensures forall key :: key in c.slots <==> SubjectModel.IsSlotName(key)
  {
    ClientSubject(s.id, Some(s.subjectName), None,
                  map["timetable" := FromSlot(s.timetable), "lessonplan" := FromSlot(s.lessonplan),
                      "midsheets" := FromSlot(s.midsheets)])
  }

  /** No section of the catalog is kept under a key the server's schema
      declares, so every save the panel sends names a section the server
      rejects. */
  lemma CatalogNamesAreNotSlots(x: Section)
    ensures !SubjectModel.IsSlotName(Name(x))
  {
    match x
    case AcademicCalendar =>
    case TestSchedules =>
    case ListOfHolidays =>
    case SubjectAllocation =>
    case IndividualClassTimeTable =>
    case ListOfRegisteredStudents =>
    case CourseSyllabus =>
    case LessonPlan => assert Name(x)[6] == 'P';
    case UnitWiseHandOuts =>
    case UnitWiseLectureNotes =>
    case ContentOfTopicsBeyondSyllabus =>
    case TutorialScripts =>
    case QuestionBank =>
    case PreviousQuestionPapers =>
    case InternalEvaluation1 =>
    case InternalEvaluation2 =>
    case OverallInternalEvaluationMarks =>
    case SemesterEndExaminationQuestionPaper =>
    case ResultAnalysis =>
    case InnovativeMethodsEmployed =>
    case RecordOfAttendanceAndAssessment =>
    case StudentFeedbackReport =>
    case RecordOfAttainmentOfCourseOutcomes =>
  }

  /** For a subject as the server sends it, the panel shows every section
      with its default description and never offers the merged PDF. */
  lemma ServerSubjectShowsOnlyDefaults(s: SubjectModel.Subject, x: Section)
    ensures ShownDescription(FromServer(s), x) == DefaultDescription(x)
    ensures !HasFile(FromServer(s), x)
    ensures !HasFilesToDownload(FromServer(s))
  {
    CatalogNamesAreNotSlots(x);
    ServerSubjectHasNoFiles(s);
  }

  /** No section of a subject as the server sends it holds a file. */
  lemma ServerSubjectHasNoFiles(s: SubjectModel.Subject)
    ensures forall y :: !HasFile(FromServer(s), y)
    ensures !HasFilesToDownload(FromServer(s))
  {
    forall y ensures !HasFile(FromServer(s), y) {
      CatalogNamesAreNotSlots(y);
    }
    HasFilesToDownloadIff(FromServer(s));
  }

  /** The file picked in the editor, as the browser describes it. */
  datatype PickedFile = PickedFile(name: string, mimeType: string, size: nat)

  const MaxFileSize: nat := 10 * 1024 * 1024

  /** The three MIME types the editor accepts: PDF, `.doc` and `.docx`. */
  predicate AllowedType(mimeType: string)
  {
    || mimeType == "application/pdf"
    || mimeType == "application/msword"
    || mimeType == "application/vnd.openxmlformats-officedocument.wordprocessingml.document"
  }

  datatype FileRejection = WrongType | TooLarge

  const WrongTypeText: string := "Only PDF and Word documents are allowed!"
  const TooLargeText: string := "File size must be less than 10MB!"

  function RejectionText(r: FileRejection): string
  {
    match r
    case WrongType => WrongTypeText
    case TooLarge => TooLargeText
  }

  /** The checks of `handleFileChange`, type first. */
  function FileCheck(f: PickedFile): (r: Option<FileRejection>)
    ensures r.None? <==> AllowedType(f.mimeType) && f.size <= MaxFileSize
    ensures !AllowedType(f.mimeType) ==> r == Some(WrongType)
    ensures AllowedType(f.mimeType) && f.size > MaxFileSize ==> r == Some(TooLarge)
  {
    if !AllowedType(f.mimeType) then Some(WrongType)
    else if f.size > MaxFileSize then Some(TooLarge)
    else None
  }

  /** A file of exactly ten mebibytes is still accepted; one byte more is not. */
  lemma SizeLimitIsInclusive(f: PickedFile)
    requires AllowedType(f.mimeType)
    ensures f.size == 10485760 ==> FileCheck(f) == None
    ensures f.size == 10485761 ==> FileCheck(f) == Some(TooLarge)
  {
  }

  /** The editor's fields: the description typed and the file picked. */
  datatype SectionData = SectionData(description: string, file: Option<PickedFile>)

  const EmptyData: SectionData := SectionData("", None)

  /** The multipart body of the save: the description always, the file
      only when one was picked. */
  datatype Payload = Payload(description: string, file: Option<PickedFile>)

  /** The save request: `PUT /api/subjects/<id>/section/<name>`. The name
      is the one being edited, or "null" when none is. */
  datatype SaveRequest = SaveRequest(subjectId: string, sectionName: string, payload: Payload)

  /** How a request to the server ended: answered with the updated subject,
      or rejected with the server's `message` if it sent one. */
  datatype Answer = Answered(subject: ClientSubject) | Rejected(message: Option<string>)

  const SaveFailed: string := "Failed to update section"
  const DeleteFileFailed: string := "Failed to delete file"
  const DownloadFailed: string := "Failed to download merged PDF"

  /** `${x}` of a field that may be absent. */
  function Printed(v: Option<string>): (text: string)
    ensures v.Some? ==> text == v.value
    ensures v.None? ==> text == "undefined"
  {
    if v.Some? then v.value else "undefined"
  }

  /** `${subject.subjectName}_${subject.subjectId}_merged.pdf` */
  function DefaultDownloadName(subject: ClientSubject): string
  {
    Printed(subject.subjectName) + "_" + Printed(subject.subjectId) + "_merged.pdf"
  }

  /** The characters `.` does not match: line feed, carriage return, and
      the line and paragraph separators. */
  predicate IsLineTerminator(c: char)
  {
    c == '\n' || c == '\r' || c == '\U{2028}' || c == '\U{2029}'
  }

  /** The first line terminator at or after `i`, or the end of `s`. */
  function RunEnd(s: string, i: nat): (e: nat)
    requires i <= |s|
    ensures i <= e <= |s|
    ensures forall k :: i <= k < e ==> !IsLineTerminator(s[k])
    ensures e < |s| ==> IsLineTerminator(s[e])
    decreases |s| - i
  {
    if i == |s| || IsLineTerminator(s[i]) then i else RunEnd(s, i + 1)
  }

  /** The last `"` in `s[lo..hi]`, if any. */
  function LastQuote(s: string, lo: nat, hi: nat): (q: Option<nat>)
    requires hi <= |s|
    ensures q.Some? ==> lo <= q.value < hi && s[q.value] == '"'
    ensures q.Some? ==> forall k :: q.value < k < hi ==> s[k] != '"'
    ensures q.None? ==> forall k :: lo <= k < hi ==> s[k] != '"'
    decreases hi
  {
    if hi <= lo then None
    else if s[hi - 1] == '"' then Some(hi - 1)
    else LastQuote(s, lo, hi - 1)
  }

  const FilenameKey: string := "filename=\""

  /** The match of `filename="(.+)"` that starts at `p`, if there is one:
      after the ten characters of `filename="`, `.+` takes the longest run
      without a line terminator that is followed by a `"`. */
  function MatchAt(s: string, p: nat): (capture: Option<string>)
    requires p <= |s|
  {
    if p + 10 <= |s| && s[p..p + 10] == FilenameKey then
      match LastQuote(s, p + 11, RunEnd(s, p + 10))
      case Some(q) => Some(s[p + 10..q])
      case None => None
    else None
  }

  /** `s.match(/filename="(.+)"/)?.[1]`: the capture of the leftmost match
      at or after `p`. */
  function FilenameMatch(s: string, p: nat): (capture: Option<string>)
    requires p <= |s|
    decreases |s| - p
  {
    if p == |s| then None
    else if MatchAt(s, p).Some? then MatchAt(s, p)
    else FilenameMatch(s, p + 1)
  }

  /** `c` stands in `s` between a `filename="` at `m` and a `"`. */
  predicate QuotedAt(s: string, m: nat, c: string)
  {
    m + 10 + |c| < |s| && s[m..m + 10] == FilenameKey
    && s[m + 10..m + 10 + |c|] == c && s[m + 10 + |c|] == '"'
  }

  /** A capture is the text between a `filename="` and a later `"` on the
      same line, with at least one character. */
  lemma {:induction false} FilenameMatchSound(s: string, p: nat)
    requires p <= |s| && FilenameMatch(s, p).Some?
    ensures var c := FilenameMatch(s, p).value;
      && c != []
      && (forall k :: 0 <= k < |c| ==> !IsLineTerminator(c[k]))
      && exists m: nat :: p <= m && QuotedAt(s, m, c)
    decreases |s| - p
  {
    if MatchAt(s, p).None? {
      FilenameMatchSound(s, p + 1);
    } else {
      var e := RunEnd(s, p + 10);
      var q := LastQuote(s, p + 11, e).value;
      var c := s[p + 10..q];
      assert forall k :: 0 <= k < |c| ==> c[k] == s[p + 10 + k];
      assert QuotedAt(s, p, c);
    }
  }

  /** No `"` in the header, no match. */
  lemma {:induction false} NoQuoteNoMatch(s: string, p: nat)
    requires p <= |s| && forall k :: p <= k < |s| ==> s[k] != '"'
    ensures FilenameMatch(s, p) == None
    decreases |s| - p
  {
    if p < |s| {
      assert FilenameKey[9] == '"';
      assert p + 10 <= |s| ==> s[p..p + 10][9] == s[p + 9] != '"';
      NoQuoteNoMatch(s, p + 1);
    }
  }

  /** The header `attachment; filename="<name>"`, which is what the server's
      download sends for a Latin-1 name with no `"` or `\` (Express escapes
      those and rewrites other names). */
  function AttachmentHeader(name: string): string
  {
    "attachment; " + FilenameKey + name + "\""
  }

  /** Reading the name back out of that header gives the name, whenever it
      is one line long and not empty: the greedy capture runs to the final
      quote of the header. */
  lemma AttachmentHeaderRoundTrip(name: string)
    requires name != [] && forall k :: 0 <= k < |name| ==> !IsLineTerminator(name[k])
    ensures FilenameMatch(AttachmentHeader(name), 0) == Some(name)
  {
    var s := AttachmentHeader(name);
    NoMatchInDisposition(s, name);
    assert s[12..22] == FilenameKey;
    assert forall k :: 22 <= k < |s| - 1 ==> s[k] == name[k - 22];
    var e := RunEnd(s, 22);
    assert e == |s|;
    assert LastQuote(s, 23, e) == Some(|s| - 1);
    assert s[22..|s| - 1] == name;
    assert MatchAt(s, 12) == Some(name);
    FirstMatchFrom(s, 0, 12);
  }

  /** No match starts inside the leading `attachment; `: none of its
      characters is the `f` of `filename`. */
  lemma NoMatchInDisposition(s: string, name: string)
    requires s == AttachmentHeader(name)
    ensures forall p: nat :: p < 12 ==> MatchAt(s, p) == None
  {
    var prefix := "attachment; ";
    assert s[..12] == prefix;
    forall p: nat | p < 12
      ensures MatchAt(s, p) == None
    {
      assert s[p] == prefix[p] != 'f';
      assert FilenameKey[0] == 'f';
      assert p + 10 <= |s| ==> s[p..p + 10][0] == s[p];
    }
  }

  /** When no match starts before `m` and one starts at `m`, the search
      from `p` finds that one. */
  lemma {:induction false} FirstMatchFrom(s: string, p: nat, m: nat)
    requires p <= m < |s|
    requires forall k :: p <= k < m ==> MatchAt(s, k) == None
    requires MatchAt(s, m).Some?
    ensures FilenameMatch(s, p) == MatchAt(s, m)
    decreases m - p
  {
    if p < m {
      FirstMatchFrom(s, p + 1, m);
    }
  }

  /** The name the merged PDF is saved under: the capture when the header
      is present and matches, the default name otherwise. */
  function DownloadName(subject: ClientSubject, contentDisposition: Option<string>): (name: string)
    ensures !Truthy(contentDisposition) ==> name == DefaultDownloadName(subject)
    ensures Truthy(contentDisposition) && FilenameMatch(contentDisposition.value, 0).Some? ==>
              name == FilenameMatch(contentDisposition.value, 0).value
    ensures Truthy(contentDisposition) && FilenameMatch(contentDisposition.value, 0).None? ==>
              name == DefaultDownloadName(subject)
  {
    if Truthy(contentDisposition) && FilenameMatch(contentDisposition.value, 0).Some? then
      FilenameMatch(contentDisposition.value, 0).value
    else DefaultDownloadName(subject)
  }

  /** The panel's own state. */
  class SectionEditor {
    var editingSection: Option<Section>
    var sectionData: SectionData
    var loading: bool
    var error: string

    constructor ()
      ensures editingSection == None && sectionData == EmptyData && !loading && error == ""
    {
      editingSection := None;
      sectionData := EmptyData;
      loading := false;
      error := "";
    }

    /** `handleEditSection`: the section is being edited, starting from its
        stored description (or nothing), with no file and no error. */
    method HandleEditSection(subject: ClientSubject, x: Section)
      modifies this
      ensures editingSection == Some(x) && error == "" && loading == old(loading)
      ensures sectionData.file == None
      ensures Name(x) in subject.slots && Truthy(subject.slots[Name(x)].description) ==>
                sectionData.description == subject.slots[Name(x)].description.value
      ensures !(Name(x) in subject.slots && Truthy(subject.slots[Name(x)].description)) ==>
                sectionData.description == ""
    {
      editingSection := Some(x);
      var stored := if Name(x) in subject.slots then subject.slots[Name(x)].description else None;
      sectionData := SectionData(if Truthy(stored) then stored.value else "", None);
      error := "";
    }

    /** `handleCancelEdit` */
    method HandleCancelEdit()
      modifies this
      ensures editingSection == None && sectionData == EmptyData && error == "" && loading == old(loading)
    {
      editingSection := None;
      sectionData := EmptyData;
      error := "";
    }

    /** `handleInputChange` with the target named `description`. The editor
        as rendered has no description box and nothing calls this handler,
        so the description a save sends is the one `HandleEditSection`
        loaded; the handler is modelled for completeness. */
    method HandleDescriptionChange(value: string)
      modifies this
      ensures sectionData == old(sectionData).(description := value)
      ensures editingSection == old(editingSection) && error == old(error) && loading == old(loading)
    {
      sectionData := sectionData.(description := value);
    }

    /** `handleFileChange`, given the file picked (none when the dialog was
        dismissed). A rejected file leaves the earlier choice in place. */
    method HandleFileChange(picked: Option<PickedFile>)
      modifies this
      ensures picked.None? ==> sectionData == old(sectionData) && error == old(error)
      ensures picked.Some? && FileCheck(picked.value).Some? ==>
                sectionData == old(sectionData) && error == RejectionText(FileCheck(picked.value).value)
      ensures picked.Some? && FileCheck(picked.value).None? ==>
                sectionData == old(sectionData).(file := picked) && error == ""
      ensures editingSection == old(editingSection) && loading == old(loading)
    {
      if picked.Some? {
        var f := picked.value;
        ghost var check := FileCheck(f);
        if !AllowedType(f.mimeType) {
          error := WrongTypeText;
          return;
        }
        if f.size > MaxFileSize {
          error := TooLargeText;
          return;
        }
        sectionData := sectionData.(file := Some(f));
        error := "";
      }
    }

    /** `handleSaveSection`, given how the request ends. Returns the request
        sent and, on success, the subject handed to `onUpdate`. */
    method HandleSaveSection(subject: ClientSubject, answer: Answer)
      returns (request: SaveRequest, updated: Option<ClientSubject>)
      modifies this
      ensures request.subjectId == subject.id
      ensures request.sectionName == (if old(editingSection).Some? then Name(old(editingSection).value) else "null")
      ensures request.payload == Payload(old(sectionData).description, old(sectionData).file)
      ensures answer.Answered? ==>
                updated == Some(answer.subject) && editingSection == None && sectionData == EmptyData && error == ""
      ensures answer.Rejected? ==>
                && updated == None && editingSection == old(editingSection) && sectionData == old(sectionData)
                && error == FailureText(answer.message, SaveFailed)
      ensures !loading
    {
      loading := true;
      error := "";
      var payload := Payload(sectionData.description, None);
      if sectionData.file.Some? {
        payload := payload.(file := sectionData.file);
      }
      var name := if editingSection.Some? then Name(editingSection.value) else "null";
      request := SaveRequest(subject.id, name, payload);
      if answer.Answered? {
        updated := Some(answer.subject);
        editingSection := None;
        sectionData := EmptyData;
      } else {
        updated := None;
        error := FailureText(answer.message, SaveFailed);
      }
      loading := false;
    }

    /** `handleDeleteFile`, given the answer to the confirmation dialog and
        how the request ends. Returns the section a `DELETE` was sent for and
        the subject handed to `onUpdate`. */
    method HandleDeleteFile(x: Section, confirmed: bool, answer: Answer)
      returns (deleted: Option<string>, updated: Option<ClientSubject>)
      modifies this
      ensures deleted == (if confirmed then Some(Name(x)) else None)
      ensures updated.Some? <==> confirmed && answer.Answered?
      ensures updated.Some? ==> updated.value == answer.subject
      ensures confirmed && answer.Rejected? ==> error == FailureText(answer.message, DeleteFileFailed)
      ensures !(confirmed && answer.Rejected?) ==> error == old(error)
      ensures editingSection == old(editingSection) && sectionData == old(sectionData) && loading == old(loading)
    {
      if !confirmed {
        return None, None;
      }
      deleted := Some(Name(x));
      if answer.Answered? {
        updated := Some(answer.subject);
      } else {
        updated := None;
        error := FailureText(answer.message, DeleteFileFailed);
      }
    }

    /** `handleDownloadMergedPdf`, given the `Content-Disposition` header of
        the answer, or the server's message when the request fails. Returns
        the name the file is saved under, if it is saved. */
    method HandleDownloadMergedPdf(subject: ClientSubject, answer: Option<Option<string>>, message: Option<string>)
      returns (filename: Option<string>)
      modifies this
      ensures answer.Some? ==> filename == Some(DownloadName(subject, answer.value)) && error == ""
      ensures answer.None? ==> filename == None && error == FailureText(message, DownloadFailed)
      ensures !loading && editingSection == old(editingSection) && sectionData == old(sectionData)
    {
      loading := true;
      error := "";
      if answer.None? {
        error := FailureText(message, DownloadFailed);
        filename := None;
      } else {
        var contentDisposition := answer.value;
        var name := DefaultDownloadName(subject);
        if Truthy(contentDisposition) {
          var filenameMatch := FilenameMatch(contentDisposition.value, 0);
          if filenameMatch.Some? {
            name := filenameMatch.value;
          }
        }
        filename := Some(name);
      }
      loading := false;
    }
  }
}
