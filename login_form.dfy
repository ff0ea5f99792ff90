/** The login form: three fields, their validation, the error shown under
    each, and the submission that hands the fields to `onLogin`. */
module LoginForm {
  import opened Common
  import opened FormFields

  datatype Field = Email | Department | FacultyId

  datatype LoginData = LoginData(email: string, department: string, facultyId: string)

  /** The form with one field replaced, as `handleChange` spreads it. */
  function WithField(d: LoginData, field: Field, value: string): (r: LoginData)
    ensures field == Email ==> r == d.(email := value)
    ensures field == Department ==> r == d.(department := value)
    ensures field == FacultyId ==> r == d.(facultyId := value)
  {
    match field
    case Email => d.(email := value)
    case Department => d.(department := value)
    case FacultyId => d.(facultyId := value)
  }

  /** `validateForm`'s `newErrors`: an empty or malformed email, an empty
      department, an empty faculty id (not trimmed). */
  function LoginErrors(d: LoginData): (errors: map<Field, Problem>)
    ensures Email in errors <==> !EmailLike(d.email)
    ensures Email in errors ==> errors[Email] == EmailProblem(d.email).value
    ensures Department in errors <==> d.department == ""
    ensures Department in errors ==> errors[Department] == DepartmentRequired
    ensures FacultyId in errors <==> d.facultyId == ""
    ensures FacultyId in errors ==> errors[FacultyId] == FacultyIdRequired
  {
    var e1: map<Field, Problem> := if !EmailLike(d.email) then map[Email := EmailProblem(d.email).value] else map[];
    var e2 := if d.department == "" then e1[Department := DepartmentRequired] else e1;
    if d.facultyId == "" then e2[FacultyId := FacultyIdRequired] else e2
  }

  /** The form passes exactly when the email looks like one and the other
      two fields are filled in. */
  lemma LoginValidIff(d: LoginData)
    ensures LoginErrors(d) == map[] <==> EmailLike(d.email) && d.department != "" && d.facultyId != ""
  {
    if EmailLike(d.email) && d.department != "" && d.facultyId != "" {
      assert LoginErrors(d).Keys == {};
    } else {
      assert Email in LoginErrors(d) || Department in LoginErrors(d) || FacultyId in LoginErrors(d);
    }
  }

  /** The login component's state. */
  class Login {
    var formData: LoginData
    var errors: map<Field, string>
    var error: string
    var loading: bool

    constructor ()
      ensures formData == LoginData("", "", "") && errors == map[] && error == "" && !loading
    {
      formData := LoginData("", "", "");
      errors := map[];
      error := "";
      loading := false;
    }

    /** `handleChange`: the field takes the typed value and its shown error is cleared. */
    method HandleChange(field: Field, value: string)
      modifies this
      ensures formData == WithField(old(formData), field, value)
      ensures errors == ClearError(old(errors), field)
      ensures error == old(error) && loading == old(loading)
    {
      formData := WithField(formData, field, value);
      errors := ClearError(errors, field);
    }

    /** `validateForm`: the errors are replaced by the new ones. */
    method ValidateForm() returns (valid: bool)
      modifies this
      ensures errors == Shown(LoginErrors(formData))
      ensures valid <==> EmailLike(formData.email) && formData.department != "" && formData.facultyId != ""
      ensures formData == old(formData) && error == old(error) && loading == old(loading)
    {
      var newErrors: map<Field, Problem> := map[];
      if formData.email == "" {
        newErrors := newErrors[Email := EmailRequired];
      } else if !EmailLike(formData.email) {
        newErrors := newErrors[Email := EmailInvalid];
      }
      if formData.department == "" {
        newErrors := newErrors[Department := DepartmentRequired];
      }
      if formData.facultyId == "" {
        newErrors := newErrors[FacultyId := FacultyIdRequired];
      }
      assert newErrors == LoginErrors(formData);
      errors := Shown(newErrors);
      LoginValidIff(formData);
      valid := |newErrors| == 0;
    }

    /** `handleSubmit`, given what `onLogin` does when called: a valid form
        is passed on as it stands and the outcome decides the error shown;
        an invalid one calls nothing. */
    method HandleSubmit(outcome: SubmitOutcome) returns (call: Option<LoginData>)
      modifies this
      ensures errors == Shown(LoginErrors(old(formData))) && formData == old(formData)
      ensures call.Some? <==> LoginErrors(formData) == map[]
      ensures call.Some? ==> call.value == formData && error == SubmitError(outcome) && !loading
      ensures call.None? ==> error == "" && loading == old(loading)
    {
      error := "";
      var valid := ValidateForm();
      if !valid {
        return None;
      }
      loading := true;
      call := Some(formData);
      error := SubmitError(outcome);
      loading := false;
    }
  }
}
