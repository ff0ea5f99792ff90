/** The dashboard of one academic year: the list of the teacher's subjects,
    the add/edit form, and the in-place replacement of a subject that a
    section edit sent back. Requests are described by what they send; what
    the server answers is a parameter. */
module Dashboard {
  import opened Common

  const LoadFailed: string := "Failed to load subjects"
  const SaveFailed: string := "Failed to save subject"
  const DeleteFailed: string := "Failed to delete subject"

  /** A subject as the list holds it; `department` may be absent. */
  datatype SubjectCard = SubjectCard(id: string, year: string, semester: string, subjectCode: string,
                                     subjectName: string, regulation: string, department: Option<string>)

  /** The six inputs of the add/edit form. */
  datatype FormData = FormData(year: string, semester: string, subjectCode: string,
                               subjectName: string, regulation: string, department: string)

  datatype FormField = Year | Semester | SubjectCode | SubjectName | Regulation | DepartmentField

  /** The form with every input empty. */
  const EmptyForm: FormData := FormData("", "", "", "", "", "")

  /** `{ ...formData, academicYear }` */
  datatype SubjectData = SubjectData(form: FormData, academicYear: string)

  /** The request `handleSubmit` sends. */
  datatype Request = Put(id: string, data: SubjectData) | Post(data: SubjectData)

  /** How a request ended: answered, or rejected with the server's
      `message` if the answer carried one. */
  datatype Outcome = Ok | Failed(message: Option<string>)

  function WithInput(d: FormData, field: FormField, value: string): (r: FormData)
    ensures field == Year ==> r == d.(year := value)
    ensures field == Semester ==> r == d.(semester := value)
    ensures field == SubjectCode ==> r == d.(subjectCode := value)
    ensures field == SubjectName ==> r == d.(subjectName := value)
    ensures field == Regulation ==> r == d.(regulation := value)
    ensures field == DepartmentField ==> r == d.(department := value)
  {
    match field
    case Year => d.(year := value)
    case Semester => d.(semester := value)
    case SubjectCode => d.(subjectCode := value)
    case SubjectName => d.(subjectName := value)
    case Regulation => d.(regulation := value)
    case DepartmentField => d.(department := value)
  }

  /** The form `handleEdit` fills from a subject; a missing department
      becomes the empty string. */
  function EditForm(s: SubjectCard): (d: FormData)
    ensures d.year == s.year && d.semester == s.semester && d.subjectCode == s.subjectCode
    ensures d.subjectName == s.subjectName && d.regulation == s.regulation
    ensures d.department == (if s.department.Some? then s.department.value else "")
  {
    FormData(s.year, s.semester, s.subjectCode, s.subjectName, s.regulation,
             if s.department.Some? then s.department.value else "")
  }

  /** `subjects.map(subject => subject._id === updated._id ? updated : subject)` */
  function ReplaceById(subjects: seq<SubjectCard>, updated: SubjectCard): (r: seq<SubjectCard>)
    ensures |r| == |subjects|
  {
    if subjects == [] then []
    else [if subjects[0].id == updated.id then updated else subjects[0]] + ReplaceById(subjects[1..], updated)
  }

  /** Each position holds the updated subject when its id matches, and its
      old subject otherwise. */
  lemma {:induction false} ReplaceByIdAt(subjects: seq<SubjectCard>, updated: SubjectCard, i: int)
    requires 0 <= i < |subjects|
    ensures subjects[i].id == updated.id ==> ReplaceById(subjects, updated)[i] == updated
    ensures subjects[i].id != updated.id ==> ReplaceById(subjects, updated)[i] == subjects[i]
    decreases i
  {
    if i > 0 {
      ReplaceByIdAt(subjects[1..], updated, i - 1);
    }
  }

  /** When no subject has the updated one's id, the list is unchanged. */
  lemma {:induction false} ReplaceByIdNoMatch(subjects: seq<SubjectCard>, updated: SubjectCard)
    requires forall s :: s in subjects ==> s.id != updated.id
    ensures ReplaceById(subjects, updated) == subjects
  {
    if subjects != [] {
      ReplaceByIdNoMatch(subjects[1..], updated);
    }
  }

  /** Replacing twice with the same subject is replacing once. */
  lemma ReplaceByIdIdempotent(subjects: seq<SubjectCard>, updated: SubjectCard)
    ensures ReplaceById(ReplaceById(subjects, updated), updated) == ReplaceById(subjects, updated)
  {
    var once := ReplaceById(subjects, updated);
    forall i | 0 <= i < |subjects|
      ensures ReplaceById(once, updated)[i] == once[i]
    {
      ReplaceByIdAt(subjects, updated, i);
      ReplaceByIdAt(once, updated, i);
    }
  }

  /** After the replacement, the subjects with the updated id are exactly
      the copies of the updated subject. */
  lemma ReplaceByIdSettlesId(subjects: seq<SubjectCard>, updated: SubjectCard)
    ensures forall i :: 0 <= i < |subjects| && ReplaceById(subjects, updated)[i].id == updated.id ==>
              ReplaceById(subjects, updated)[i] == updated
  {
    forall i | 0 <= i < |subjects| && ReplaceById(subjects, updated)[i].id == updated.id
      ensures ReplaceById(subjects, updated)[i] == updated
    {
      ReplaceByIdAt(subjects, updated, i);
    }
  }

  /** The dashboard component's state for the year `academicYear`. */
  class Dashboard {
    const academicYear: string
    var subjects: seq<SubjectCard>
    var loading: bool
    var error: string
    var showAddForm: bool
    var editing: Option<SubjectCard>
    var selectedSubject: Option<string>
    var formData: FormData

    constructor (academicYear: string)
      ensures this.academicYear == academicYear
      ensures subjects == [] && loading && error == "" && !showAddForm
      ensures editing == None && selectedSubject == None && formData == EmptyForm
    {
      this.academicYear := academicYear;
      subjects := [];
      loading := true;
      error := "";
      showAddForm := false;
      editing := None;
      selectedSubject := None;
      formData := EmptyForm;
    }

    /** `fetchSubjects`, given the list the server returns or `None` when
        the request fails: the list replaces the old one, or the load error
        is shown; loading ends either way. */
    method FetchSubjects(fetched: Option<seq<SubjectCard>>)
      modifies this
      ensures fetched.Some? ==> subjects == fetched.value && error == old(error)
      ensures fetched.None? ==> subjects == old(subjects) && error == LoadFailed
      ensures !loading
      ensures showAddForm == old(showAddForm) && editing == old(editing)
      ensures selectedSubject == old(selectedSubject) && formData == old(formData)
    {
      if fetched.Some? {
        subjects := fetched.value;
      } else {
        error := LoadFailed;
      }
      loading := false;
    }

    /** `handleInputChange` */
    method HandleInputChange(field: FormField, value: string)
      modifies this
      ensures formData == WithInput(old(formData), field, value)
      ensures subjects == old(subjects) && loading == old(loading) && error == old(error)
      ensures showAddForm == old(showAddForm) && editing == old(editing)
      ensures selectedSubject == old(selectedSubject)
    {
      formData := WithInput(formData, field, value);
    }

    /** `handleSubmit`, given how the save request ends and what the list
        request that follows a successful save returns. The request sent is
        returned: a `PUT` to the subject being edited, else a `POST`, both
        carrying the form and the year. */
    method HandleSubmit(outcome: Outcome, refetched: Option<seq<SubjectCard>>) returns (request: Request)
      modifies this
      ensures request.data == SubjectData(old(formData), academicYear)
      ensures old(editing).Some? ==> request == Put(old(editing).value.id, request.data)
      ensures old(editing).None? ==> request.Post?
      ensures outcome.Ok? ==>
                && formData == EmptyForm && !showAddForm && editing == None && !loading
                && (refetched.Some? ==> subjects == refetched.value && error == old(error))
                && (refetched.None? ==> subjects == old(subjects) && error == LoadFailed)
      ensures outcome.Failed? ==>
                && error == FailureText(outcome.message, SaveFailed)
                && formData == old(formData) && showAddForm == old(showAddForm)
                && editing == old(editing) && subjects == old(subjects) && loading == old(loading)
      ensures selectedSubject == old(selectedSubject)
    {
      var subjectData := SubjectData(formData, academicYear);
      if editing.Some? {
        request := Put(editing.value.id, subjectData);
        if outcome.Failed? {
          error := FailureText(outcome.message, SaveFailed);
          return;
        }
        editing := None;
      } else {
        request := Post(subjectData);
        if outcome.Failed? {
          error := FailureText(outcome.message, SaveFailed);
          return;
        }
      }
      formData := EmptyForm;
      showAddForm := false;
      FetchSubjects(refetched);
    }

    /** `handleEdit`: the subject is being edited, its fields fill the
        form, and the form is shown. */
    method HandleEdit(subject: SubjectCard)
      modifies this
      ensures editing == Some(subject) && formData == EditForm(subject) && showAddForm
      ensures subjects == old(subjects) && loading == old(loading) && error == old(error)
      ensures selectedSubject == old(selectedSubject)
    {
      editing := Some(subject);
      formData := EditForm(subject);
      showAddForm := true;
    }

    /** `handleDelete`, given the answer to the confirmation dialog, how
        the delete request ends and what the list request after it returns.
        Returns the id a `DELETE` was sent for, if one was. */
    method HandleDelete(subjectId: string, confirmed: bool, outcome: Outcome,
                        refetched: Option<seq<SubjectCard>>) returns (deleted: Option<string>)
      modifies this
      ensures deleted == (if confirmed then Some(subjectId) else None)
      ensures !confirmed ==> subjects == old(subjects) && error == old(error) && loading == old(loading)
      ensures confirmed && outcome.Ok? ==>
                && !loading
                && (refetched.Some? ==> subjects == refetched.value && error == old(error))
                && (refetched.None? ==> subjects == old(subjects) && error == LoadFailed)
      ensures confirmed && outcome.Failed? ==>
                error == FailureText(outcome.message, DeleteFailed) && subjects == old(subjects)
                && loading == old(loading)
      ensures formData == old(formData) && showAddForm == old(showAddForm) && editing == old(editing)
      ensures selectedSubject == old(selectedSubject)
    {
      if !confirmed {
        return None;
      }
      deleted := Some(subjectId);
      if outcome.Ok? {
        FetchSubjects(refetched);
      } else {
        error := FailureText(outcome.message, DeleteFailed);
      }
    }

    /** `handleCancel`: the form is hidden, nothing is being edited, and
        every input is emptied. */
    method HandleCancel()
      modifies this
      ensures !showAddForm && editing == None && formData == EmptyForm
      ensures subjects == old(subjects) && loading == old(loading) && error == old(error)
      ensures selectedSubject == old(selectedSubject)
    {
      showAddForm := false;
      editing := None;
      formData := EmptyForm;
    }

    /** `handleSubjectUpdate`: the subject sent back by a section edit takes
        the place of every subject with its id. */
    method HandleSubjectUpdate(updated: SubjectCard)
      modifies this
      ensures subjects == ReplaceById(old(subjects), updated)
      ensures loading == old(loading) && error == old(error) && showAddForm == old(showAddForm)
      ensures editing == old(editing) && formData == old(formData) && selectedSubject == old(selectedSubject)
    {
      subjects := ReplaceById(subjects, updated);
    }

    /** `handleViewSubject` */
    method HandleViewSubject(subject: SubjectCard)
      modifies this
      ensures selectedSubject == Some(subject.id)
      ensures subjects == old(subjects) && formData == old(formData) && editing == old(editing)
      ensures loading == old(loading) && error == old(error) && showAddForm == old(showAddForm)
    {
      selectedSubject := Some(subject.id);
    }

    /** `handleBackToDashboard` */
    method HandleBackToDashboard()
      modifies this
      ensures selectedSubject == None
      ensures subjects == old(subjects) && formData == old(formData) && editing == old(editing)
      ensures loading == old(loading) && error == old(error) && showAddForm == old(showAddForm)
    {
      selectedSubject := None;
    }
  }

  /** Editing a subject and saving the unchanged form sends a `PUT` to that
      subject with its own fields, its department or the empty string, and
      the dashboard's year. */
  method EditThenSave(dashboard: Dashboard, subject: SubjectCard, outcome: Outcome,
                      refetched: Option<seq<SubjectCard>>) returns (request: Request)
    modifies dashboard
    ensures request == Put(subject.id, SubjectData(EditForm(subject), dashboard.academicYear))
    ensures request.data.form.department == (if subject.department.Some? then subject.department.value else "")
  {
    dashboard.HandleEdit(subject);
    request := dashboard.HandleSubmit(outcome, refetched);
  }

  /** A cancelled edit followed by a save creates a new subject from an
      empty form instead of changing the one that was being edited. */
  method CancelThenSave(dashboard: Dashboard, subject: SubjectCard, outcome: Outcome,
                        refetched: Option<seq<SubjectCard>>) returns (request: Request)
    modifies dashboard
    ensures request == Post(SubjectData(EmptyForm, dashboard.academicYear))
  {
    dashboard.HandleEdit(subject);
    dashboard.HandleCancel();
    request := dashboard.HandleSubmit(outcome, refetched);
  }
}
