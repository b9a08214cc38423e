/**
 * What SignupPage.jsx and LoginPage.jsx share: the per-field error map of a
 * form, the way editing a field clears that field's error, the email rule,
 * and the outcome of the awaited `signup`/`login` call.
 */
module Forms {
  import opened Js
  import opened Helpers

  /** The named inputs of the two forms, and the `submit` entry of the error map. */
  datatype Field = Username | Email | Password | ConfirmPassword | Submit

  /** The `errors` state: field to message; `''` is a cleared message. */
  type Errors = map<Field, string>

  /** The awaited `signup(...)` or `login(...)`: it resolves, or throws an error with a message. */
  datatype Attempt = Succeeded | Failed(message: string)

  const EmailRequired := "Email is required"
  const EmailInvalid := "Please enter a valid email address"

  /** `errors[name]` is truthy. */
  predicate HasError(errors: Errors, name: Field)
  {
    name in errors && errors[name] != ""
  }

  /**
   * The error update of `handleChange`: a truthy error of the edited field
   * becomes `''`; no other entry changes, and nothing changes when the
   * field had no error.
   */
  function ClearOnEdit(errors: Errors, name: Field): (r: Errors)
    ensures !HasError(r, name)
    ensures r.Keys == errors.Keys
    ensures forall k :: k in errors && k != name ==> r[k] == errors[k]
    ensures !HasError(errors, name) ==> r == errors
  {
    if HasError(errors, name) then errors[name := ""] else errors
  }

  /** Editing the same field again changes no error. */
  lemma ClearOnEditIdempotent(errors: Errors, name: Field)
    ensures ClearOnEdit(ClearOnEdit(errors, name), name) == ClearOnEdit(errors, name)
  {
  }

  /** Set `name` to the message, when there is one. */
  function Put(errors: Errors, name: Field, message: Option<string>): (r: Errors)
    ensures message.None? ==> r == errors
    ensures message.Some? ==> r == errors[name := message.value]
  {
    if message.Some? then errors[name := message.value] else errors
  }

  /** The email rule of both forms: required, then `isValidEmail`. */
  function EmailError(email: string): (r: Option<string>)
    ensures r.None? <==> IsValidEmail(email)
    ensures email == "" ==> r == Some(EmailRequired)
    ensures email != "" && !IsValidEmail(email) ==> r == Some(EmailInvalid)
  {
    if email == "" then Some(EmailRequired)
    else if !IsValidEmail(email) then Some(EmailInvalid)
    else None
  }
}
