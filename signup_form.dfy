/** The signup form: seven fields, their validation (names and ids are
    trimmed before the emptiness test, the password needs six characters
    and a matching confirmation), and the submission that hands six of
    them to `onSignup`. */
module SignupForm {
  import opened Common
  import opened FormFields
  import LoginForm

  const MinPasswordLength: nat := 6

  datatype Field = Name | Email | Password | ConfirmPassword | Department | FacultyId | SubjectId

  datatype SignupData = SignupData(name: string, email: string, password: string, confirmPassword: string,
                                   department: string, facultyId: string, subjectId: string)

  /** The six values passed to `onSignup`, in its parameter order. */
  datatype SignupCall = SignupCall(name: string, email: string, password: string, department: string,
                                   facultyId: string, subjectId: string)

  function WithField(d: SignupData, field: Field, value: string): (r: SignupData)
    ensures field == Name ==> r == d.(name := value)
    ensures field == Email ==> r == d.(email := value)
    ensures field == Password ==> r == d.(password := value)
    ensures field == ConfirmPassword ==> r == d.(confirmPassword := value)
    ensures field == Department ==> r == d.(department := value)
    ensures field == FacultyId ==> r == d.(facultyId := value)
    ensures field == SubjectId ==> r == d.(subjectId := value)
  {
    match field
    case Name => d.(name := value)
    case Email => d.(email := value)
    case Password => d.(password := value)
    case ConfirmPassword => d.(confirmPassword := value)
    case Department => d.(department := value)
    case FacultyId => d.(facultyId := value)
    case SubjectId => d.(subjectId := value)
  }

  /** `password.length` counts UTF-16 code units, so a character beyond the
      Basic Multilingual Plane counts twice. */
  function PasswordProblem(password: string): (p: Option<Problem>)
    ensures p.None? <==> Utf16Length(password) >= MinPasswordLength
    ensures p == Some(PasswordRequired) <==> password == ""
  {
    if password == "" then Some(PasswordRequired)
    else if Utf16Length(password) < MinPasswordLength then Some(PasswordTooShort)
    else None
  }

  /** Three emoji make a password of JavaScript length six, which passes,
      although it holds three characters. */
  lemma ThreeEmojiPasswordPasses()
    ensures PasswordProblem("\U{1F600}\U{1F600}\U{1F600}") == None
  {
    var s := "\U{1F600}\U{1F600}\U{1F600}";
    assert s[1..][1..][1..] == [];
  }

  function ConfirmProblem(password: string, confirm: string): (p: Option<Problem>)
    ensures p.None? <==> confirm != "" && confirm == password
  {
    if confirm == "" then Some(ConfirmRequired)
    else if password != confirm then Some(PasswordsDiffer)
    else None
  }

  /** `!value.trim()` reported as `p`. */
  function Blank(value: string, p: Problem): (r: Option<Problem>)
    ensures r.Some? <==> AllSpace(value)
    ensures r.Some? ==> r.value == p
  {
    TrimEmptyIffAllSpace(value);
    if Trim(value) == "" then Some(p) else None
  }

  /** One `if (...) newErrors.field = ...` step: the field gets the
      problem when there is one; no other field changes. */
  function Record(errors: map<Field, Problem>, field: Field, p: Option<Problem>): (r: map<Field, Problem>)
    ensures field in r <==> field in errors || p.Some?
    ensures p.Some? ==> r[field] == p.value
    ensures forall f :: f != field ==> (f in r <==> f in errors)
    ensures forall f :: f in errors && (f != field || p.None?) ==> r[f] == errors[f]
  {
    if p.Some? then errors[field := p.value] else errors
  }

  const AllFields: set<Field> := {Name, Email, Password, ConfirmPassword, Department, FacultyId, SubjectId}

  /** The problem `validateForm` records for one field, if any: a field
      has one exactly when its rule fails. */
  function FieldProblem(d: SignupData, field: Field): (r: Option<Problem>)
    ensures field == Name ==> (r.Some? <==> AllSpace(d.name))
    ensures field == Email ==> (r.Some? <==> !EmailLike(d.email))
    ensures field == Password ==> (r.Some? <==> Utf16Length(d.password) < MinPasswordLength)
    ensures field == ConfirmPassword ==> (r.Some? <==> d.confirmPassword == "" || d.confirmPassword != d.password)
    ensures field == Department ==> (r.Some? <==> d.department == "")
    ensures field == FacultyId ==> (r.Some? <==> AllSpace(d.facultyId))
    ensures field == SubjectId ==> (r.Some? <==> AllSpace(d.subjectId))
  {
    match field
    case Name => Blank(d.name, NameRequired)
    case Email => EmailProblem(d.email)
    case Password => PasswordProblem(d.password)
    case ConfirmPassword => ConfirmProblem(d.password, d.confirmPassword)
    case Department => if d.department == "" then Some(DepartmentRequired) else None
    case FacultyId => Blank(d.facultyId, FacultyIdRequired)
    case SubjectId => Blank(d.subjectId, SubjectIdRequired)
  }

  /** `validateForm`'s `newErrors`: every field's problem, where it has one. */
  function SignupErrors(d: SignupData): (errors: map<Field, Problem>)
    ensures forall f :: f in errors <==> FieldProblem(d, f).Some?
    ensures forall f :: f in errors ==> errors[f] == FieldProblem(d, f).value
  {
    map f | f in AllFields && FieldProblem(d, f).Some? :: FieldProblem(d, f).value
  }

  /** The problems of the fields in `fields`, where they have one. */
  ghost function Recorded(problem: Field -> Option<Problem>, fields: set<Field>): map<Field, Problem>
  {
    map f | f in fields && problem(f).Some? :: problem(f).value
  }

  /** Recording one more field's problem extends the map by that field. */
  lemma RecordStep(problem: Field -> Option<Problem>, fields: set<Field>, field: Field)
    ensures Record(Recorded(problem, fields), field, problem(field)) == Recorded(problem, fields + {field})
  {
    var r := Record(Recorded(problem, fields), field, problem(field));
    assert forall f :: f in r <==> f in Recorded(problem, fields + {field});
  }

  /** Recording the first four fields' problems, starting from no errors. */
  lemma RecordFirstFields(problem: Field -> Option<Problem>)
    ensures Record(Record(Record(Record(map[], Name, problem(Name)), Email, problem(Email)),
              Password, problem(Password)), ConfirmPassword, problem(ConfirmPassword))
         == Recorded(problem, {Name, Email, Password, ConfirmPassword})
  {
    var s0: set<Field> := {};
    var r0: map<Field, Problem> := map[];
    assert r0 == Recorded(problem, s0);
    var r1, s1 := Record(r0, Name, problem(Name)), s0 + {Name};
    assert r1 == Recorded(problem, s1) by { RecordStep(problem, s0, Name); }
    var r2, s2 := Record(r1, Email, problem(Email)), s1 + {Email};
    assert r2 == Recorded(problem, s2) by { RecordStep(problem, s1, Email); }
    var r3, s3 := Record(r2, Password, problem(Password)), s2 + {Password};
    assert r3 == Recorded(problem, s3) by { RecordStep(problem, s2, Password); }
    RecordStep(problem, s3, ConfirmPassword);
    assert s3 + {ConfirmPassword} == {Name, Email, Password, ConfirmPassword};
  }

  /** Recording the problems of all seven fields in turn, starting from no
      errors, gives the map of every field that has one. */
  lemma RecordEachField(problem: Field -> Option<Problem>)
    ensures (map f | f in AllFields && problem(f).Some? :: problem(f).value) ==
      Record(Record(Record(Record(Record(Record(Record(map[],
        Name, problem(Name)), Email, problem(Email)),
        Password, problem(Password)), ConfirmPassword, problem(ConfirmPassword)),
        Department, problem(Department)), FacultyId, problem(FacultyId)),
        SubjectId, problem(SubjectId))
  {
    var s4: set<Field> := {Name, Email, Password, ConfirmPassword};
    var r4 := Record(Record(Record(Record(map[], Name, problem(Name)), Email, problem(Email)),
                Password, problem(Password)), ConfirmPassword, problem(ConfirmPassword));
    assert r4 == Recorded(problem, s4) by { RecordFirstFields(problem); }
    var r5, s5 := Record(r4, Department, problem(Department)), s4 + {Department};
    assert r5 == Recorded(problem, s5) by { RecordStep(problem, s4, Department); }
    var r6, s6 := Record(r5, FacultyId, problem(FacultyId)), s5 + {FacultyId};
    assert r6 == Recorded(problem, s6) by { RecordStep(problem, s5, FacultyId); }
    RecordStep(problem, s6, SubjectId);
    assert s6 + {SubjectId} == AllFields;
  }

  /** The whole condition under which the form is submitted. */
  predicate Acceptable(d: SignupData)
  {
    && !AllSpace(d.name) && EmailLike(d.email) && Utf16Length(d.password) >= MinPasswordLength
    && d.confirmPassword == d.password && d.department != ""
    && !AllSpace(d.facultyId) && !AllSpace(d.subjectId)
  }

  lemma SignupValidIff(d: SignupData)
    ensures SignupErrors(d) == map[] <==> Acceptable(d)
  {
    var errors := SignupErrors(d);
    if Acceptable(d) {
      forall f | f in AllFields
        ensures f !in errors
      {
        assert FieldProblem(d, f).None?;
      }
      assert errors.Keys == {};
    } else if AllSpace(d.name) {
      assert FieldProblem(d, Name).Some?;
    } else if !EmailLike(d.email) {
      assert FieldProblem(d, Email).Some?;
    } else if Utf16Length(d.password) < MinPasswordLength {
      assert FieldProblem(d, Password).Some?;
    } else if d.confirmPassword != d.password {
      assert FieldProblem(d, ConfirmPassword).Some?;
    } else if d.department == "" {
      assert FieldProblem(d, Department).Some?;
    } else if AllSpace(d.facultyId) {
      assert FieldProblem(d, FacultyId).Some?;
    } else {
      assert FieldProblem(d, SubjectId).Some?;
    }
  }

  /** A faculty id of spaces passes the login form but not this one: login
      tests the raw value, signup the trimmed one. */
  lemma BlankFacultyIdOnlyPassesLogin(d: SignupData, l: LoginForm.LoginData)
    requires d.facultyId == l.facultyId && d.facultyId != "" && AllSpace(d.facultyId)
    ensures FacultyId in SignupErrors(d)
    ensures LoginForm.FacultyId !in LoginForm.LoginErrors(l)
  {
    assert FieldProblem(d, FacultyId).Some?;
  }

  /** The rule-by-rule filling of `newErrors` in `validateForm`. */
  method NewErrors(d: SignupData) returns (newErrors: map<Field, Problem>)
    ensures newErrors == SignupErrors(d)
  {
    newErrors := map[];
    newErrors := Record(newErrors, Name, FieldProblem(d, Name));
    newErrors := Record(newErrors, Email, FieldProblem(d, Email));
    newErrors := Record(newErrors, Password, FieldProblem(d, Password));
    newErrors := Record(newErrors, ConfirmPassword, FieldProblem(d, ConfirmPassword));
    newErrors := Record(newErrors, Department, FieldProblem(d, Department));
    newErrors := Record(newErrors, FacultyId, FieldProblem(d, FacultyId));
    newErrors := Record(newErrors, SubjectId, FieldProblem(d, SubjectId));
    RecordEachField(f => FieldProblem(d, f));
  }

  /** The signup component's state. */
  class Signup {
    var formData: SignupData
    var errors: map<Field, string>
    var error: string
    var loading: bool

    constructor ()
      ensures formData == SignupData("", "", "", "", "", "", "") && errors == map[] && error == "" && !loading
    {
      formData := SignupData("", "", "", "", "", "", "");
      errors := map[];
      error := "";
      loading := false;
    }

    /** `handleChange` */
    method HandleChange(field: Field, value: string)
      modifies this
      ensures formData == WithField(old(formData), field, value)
      ensures errors == ClearError(old(errors), field)
      ensures error == old(error) && loading == old(loading)
    {
      formData := WithField(formData, field, value);
      errors := ClearError(errors, field);
    }

    /** `validateForm` */
    method ValidateForm() returns (valid: bool)
      modifies this
      ensures errors == Shown(SignupErrors(formData))
      ensures valid <==> Acceptable(formData)
      ensures formData == old(formData) && error == old(error) && loading == old(loading)
    {
      var newErrors := NewErrors(formData);
      errors := Shown(newErrors);
      SignupValidIff(formData);
      assert |newErrors| == 0 <==> newErrors == map[];
      valid := |newErrors| == 0;
    }

    /** `handleSubmit`, given what `onSignup` does when called; the
        confirmation is checked here and never sent. */
    method HandleSubmit(outcome: SubmitOutcome) returns (call: Option<SignupCall>)
      modifies this
      ensures errors == Shown(SignupErrors(old(formData))) && formData == old(formData)
      ensures call.Some? <==> Acceptable(formData)
      ensures call.Some? ==>
                && call.value == SignupCall(formData.name, formData.email, formData.password,
                                            formData.department, formData.facultyId, formData.subjectId)
                && error == SubmitError(outcome) && !loading
      ensures call.None? ==> error == "" && loading == old(loading)
    {
      error := "";
      var valid := ValidateForm();
      if !valid {
        return None;
      }
      loading := true;
      call := Some(SignupCall(formData.name, formData.email, formData.password,
                              formData.department, formData.facultyId, formData.subjectId));
      error := SubmitError(outcome);
      loading := false;
    }
  }
}
