/** The change-password form of `frontend/src/pages/Profile/ProfilePage.jsx`:
    the browser's check of the three `required` inputs, then the handler's
    two checks in a fixed order, then one request carrying all three fields,
    and the fields cleared only when the request succeeds. */
module Profile {

  import opened Base
  import opened Text

  datatype PasswordForm = PasswordForm(currentPassword: string, newPassword: string, confirmPassword: string)

  /** The minimum length of a new password, in UTF-16 code units (`.length`). */
  const MinPasswordLength: nat := 6

  /** The body of `authService.changePassword`. */
  datatype ChangeRequest = ChangeRequest(currentPassword: string, newPassword: string, confirmPassword: string)

  datatype Validation =
    | EmptyField               // a `required` input is empty: the browser blocks the submit
    | Mismatch                 // "New password and confirm password do not match"
    | TooShort                 // "New password must be at least 6 characters"
    | Send(request: ChangeRequest)

  /** All three inputs carry `required`, so the browser submits the form only
      when none of them is empty. */
  predicate Filled(f: PasswordForm) {
    f.currentPassword != [] && f.newPassword != [] && f.confirmPassword != []
  }

  /** A submit up to the request: the browser refuses an empty field; then
      `handleChangePassword` reports a mismatch before the length, and a
      request is sent only when both of its checks pass. */
  function Validate(f: PasswordForm): (v: Validation)
    ensures v == EmptyField <==> !Filled(f)
    ensures v == Mismatch <==> Filled(f) && f.newPassword != f.confirmPassword
    ensures v == TooShort <==>
      Filled(f) && f.newPassword == f.confirmPassword && Utf16Length(f.newPassword) < MinPasswordLength
    ensures v.Send? <==>
      Filled(f) && f.newPassword == f.confirmPassword && Utf16Length(f.newPassword) >= MinPasswordLength
    ensures v.Send? ==> v.request == ChangeRequest(f.currentPassword, f.newPassword, f.confirmPassword)
  {
    if !Filled(f) then EmptyField
    else if f.newPassword != f.confirmPassword then Mismatch
    else if Utf16Length(f.newPassword) < MinPasswordLength then TooShort
    else Send(ChangeRequest(f.currentPassword, f.newPassword, f.confirmPassword))
  }

  /** The form after the request settles: cleared on success, kept on failure. */
  function Settle(f: PasswordForm, ok: bool): (after: PasswordForm)
    ensures ok ==> after.currentPassword == [] && after.newPassword == [] && after.confirmPassword == []
    ensures !ok ==> after == f
  {
    if ok then PasswordForm([], [], []) else f
  }

  /** One submission: the form that results and the request sent, if any. A
      rejected form is kept and nothing is sent. */
  function Submit(f: PasswordForm, ok: bool): (r: (PasswordForm, Option<ChangeRequest>))
    ensures !Validate(f).Send? ==> r == (f, None)
    ensures Validate(f).Send? ==> r.1 == Some(Validate(f).request) && r.0 == Settle(f, ok)
  {
    match Validate(f)
    case Send(request) => (Settle(f, ok), Some(request))
    case _ => (f, None)
  }

  /** Every request sent names matching passwords of at least six units. */
  lemma SentRequestsAreValid(f: PasswordForm, ok: bool)
    requires Submit(f, ok).1.Some?
    ensures var q := Submit(f, ok).1.value;
      && q.newPassword == q.confirmPassword
      && Utf16Length(q.newPassword) >= MinPasswordLength
      && q.currentPassword == f.currentPassword && q.currentPassword != []
  {
  }

  /** The length counts UTF-16 units: three characters outside the Basic
      Multilingual Plane make six units and pass, three plain letters do not. */
  lemma LengthCountsCodeUnits()
    ensures var astral := "\U{1F600}\U{1F600}\U{1F600}";
      Validate(PasswordForm("old", astral, astral)).Send?
    ensures Validate(PasswordForm("old", "abc", "abc")) == TooShort
  {
    var astral := "\U{1F600}\U{1F600}\U{1F600}";
    assert Utf16Length(astral[2..]) == 2;
    assert Utf16Length(astral[1..]) == 4;
  }

  /** After a successful change the cleared form cannot be resubmitted as is:
      the browser refuses its empty fields. */
  lemma ClearedFormIsRejected(f: PasswordForm)
    requires Validate(f).Send?
    ensures Validate(Submit(f, true).0) == EmptyField
    ensures Submit(Submit(f, true).0, true).1.None?
  {
  }

  /** After a failed change the same form is sent again unchanged. */
  lemma FailedChangeRetries(f: PasswordForm)
    requires Validate(f).Send?
    ensures Submit(Submit(f, false).0, false) == Submit(f, false)
  {
  }
}
