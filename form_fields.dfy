/** What the login and signup forms share: the email test `\S+@\S+\.\S+`
    (searched anywhere in the string, as `RegExp.test` does) and the way a
    keystroke clears the error shown under the field being edited. */
module FormFields {
  import opened Common

  /** The field errors the two forms report. */
  datatype Problem =
    | NameRequired | EmailRequired | EmailInvalid | PasswordRequired | PasswordTooShort
    | ConfirmRequired | PasswordsDiffer | DepartmentRequired | FacultyIdRequired | SubjectIdRequired

  /** The message shown for each problem. */
  function Text(p: Problem): string
  {
    match p
    case NameRequired => "Name is required"
    case EmailRequired => "Email is required"
    case EmailInvalid => "Email is invalid"
    case PasswordRequired => "Password is required"
    case PasswordTooShort => "Password must be at least 6 characters"
    case ConfirmRequired => "Please confirm your password"
    case PasswordsDiffer => "Passwords do not match"
    case DepartmentRequired => "Department is required"
    case FacultyIdRequired => "Faculty ID is required"
    case SubjectIdRequired => "Subject ID is required"
  }

  /** The errors state after `setErrors(newErrors)`: each problem's message. */
  function Shown<F>(problems: map<F, Problem>): (errors: map<F, string>)
    ensures errors.Keys == problems.Keys
    ensures forall f :: f in errors ==> errors[f] == Text(problems[f])
  {
    map f | f in problems :: Text(problems[f])
  }

  const SubmitThrew: string := "An error occurred. Please try again."

  /** The email test of both forms: `None` when it passes. */
  function EmailProblem(email: string): (p: Option<Problem>)
    ensures p.None? <==> EmailLike(email)
    ensures p.Some? ==> p.value == (if email == "" then EmailRequired else EmailInvalid)
  {
    if email == "" then
      assert !EmailLike(email);
      Some(EmailRequired)
    else if !EmailLike(email) then Some(EmailInvalid)
    else None
  }

  /** A match of the pattern with the `@` at `at` and the `.` at `dot`: a
      non-space character before the `@`, only non-space characters (at
      least one) between the two, and a non-space character after the `.`;
      the `\S+` runs may be longer, but one character each is enough. */
  predicate MatchAt(s: string, at: int, dot: int)
  {
    && 1 <= at && at + 2 <= dot && dot + 1 < |s|
    && s[at] == '@' && s[dot] == '.'
    && !IsJsSpace(s[at - 1]) && !IsJsSpace(s[dot + 1])
    && forall i :: at < i < dot ==> !IsJsSpace(s[i])
  }

  /** `/\S+@\S+\.\S+/.test(s)` */
  predicate EmailLike(s: string)
  {
    exists at, dot | 0 <= at < dot < |s| :: MatchAt(s, at, dot)
  }

  /** The test is not anchored: text around a match keeps it a match. */
  lemma EmailLikeUnanchored(p: string, s: string, q: string)
    requires EmailLike(s)
    ensures EmailLike(p + s + q)
  {
    var at, dot :| 0 <= at < dot < |s| && MatchAt(s, at, dot);
    var t := p + s + q;
    assert forall i :: 0 <= i < |s| ==> t[|p| + i] == s[i];
    assert MatchAt(t, |p| + at, |p| + dot);
  }

  /** A string with no `@` is never an email. */
  lemma NoAtNoEmail(s: string)
    requires '@' !in s
    ensures !EmailLike(s)
  {
  }

  /** A string with white space around its only `@` is never an email. */
  lemma SpaceBeforeAtNoEmail(s: string, k: int)
    requires 1 <= k < |s| && s[k] == '@' && IsJsSpace(s[k - 1])
    requires forall i :: 0 <= i < |s| && i != k ==> s[i] != '@'
    ensures !EmailLike(s)
  {
  }

  /** The smallest accepted shape: one character, `@`, one, `.`, one. */
  lemma ShortestEmail(s: string)
    requires |s| == 5 && s[1] == '@' && s[3] == '.'
    requires !IsJsSpace(s[0]) && !IsJsSpace(s[2]) && !IsJsSpace(s[4])
    ensures EmailLike(s)
  {
    assert MatchAt(s, 1, 3);
  }

  /** Nothing shorter than five characters is an email. */
  lemma EmailsHaveFiveCharacters(s: string)
    requires EmailLike(s)
    ensures |s| >= 5
  {
  }

  /** `handleChange`'s effect on the errors: a field whose error is shown
      gets the empty message; nothing else changes. */
  function ClearError<F>(errors: map<F, string>, field: F): (r: map<F, string>)
    ensures r.Keys == errors.Keys
    ensures field in errors ==> r[field] == ""
    ensures forall f :: f in errors && f != field ==> r[f] == errors[f]
  {
    if field in errors && errors[field] != "" then errors[field := ""] else errors
  }

  /** What `onLogin` or `onSignup` resolves to, or its throwing. */
  datatype SubmitOutcome = Resolved(success: bool, message: string) | Threw

  /** The form-level error after a submission that called the handler. */
  function SubmitError(outcome: SubmitOutcome): (e: string)
    ensures outcome.Resolved? && outcome.success ==> e == ""
    ensures outcome.Resolved? && !outcome.success ==> e == outcome.message
    ensures outcome.Threw? ==> e == SubmitThrew
  {
    match outcome
    case Resolved(success, message) => if success then "" else message
    case Threw => SubmitThrew
  }
}
