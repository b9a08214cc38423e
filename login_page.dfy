/**
 * LoginPage.jsx: the log-in form's state, its two rules (a valid email and
 * a present password, with no strength rules), the error clearing on edit
 * and the gate in front of `login`.
 */
module LoginPage {
  import opened Js
  import opened Helpers
  import opened Forms

  const PasswordMissing := "Password is required"

  /** Only presence is checked: any non-empty password is accepted here. */
  function PasswordError(password: string): (r: Option<string>)
    ensures r.None? <==> password != ""
    ensures r.Some? ==> r.value == PasswordMissing
  {
    if password == "" then Some(PasswordMissing) else None
  }

  /** The errors `validateForm` finds. */
  function FormErrors(email: string, password: string): Errors
  {
    Put(Put(map[], Email, EmailError(email)), Password, PasswordError(password))
  }

  /** The form is valid exactly when the email is valid and a password is typed, however weak. */
  lemma ValidIff(email: string, password: string)
    ensures FormErrors(email, password) == map[] <==> IsValidEmail(email) && password != ""
  {
    var e1 := Put(map[], Email, EmailError(email));
    var e2 := Put(e1, Password, PasswordError(password));
    if e2 == map[] {
      assert Password !in e2 && Email !in e1;
    }
  }

  class LoginPage {
    var formData: map<Field, string>
    var errors: Errors
    var loading: bool

    ghost predicate Valid()
      reads this
    {
      Email in formData && Password in formData
    }

    constructor ()
      ensures Valid() && errors == map[] && !loading
      ensures formData == map[Email := "", Password := ""]
    {
      formData := map[Email := "", Password := ""];
      errors := map[];
      loading := false;
    }

    function FieldErrors(): Errors
      requires Valid()
      reads this
    {
      FormErrors(formData[Email], formData[Password])
    }

    /** `handleChange`: the field takes the value, and only that field's error is cleared. */
    method HandleChange(name: Field, value: string)
      requires Valid()
      modifies this
      ensures Valid()
      ensures formData == old(formData)[name := value]
      ensures errors == ClearOnEdit(old(errors), name) && loading == old(loading)
    {
      formData := formData[name := value];
      errors := ClearOnEdit(errors, name);
    }

    /** `validateForm`: the errors are replaced by the fresh ones, and the form is valid when there are none. */
    method ValidateForm() returns (valid: bool)
      requires Valid()
      modifies this
      ensures Valid() && formData == old(formData) && loading == old(loading)
      ensures errors == FieldErrors()
      ensures valid <==> errors == map[]
    {
      var newErrors: Errors := map[];
      var email := formData[Email];
      if email == "" {
        newErrors := newErrors[Email := EmailRequired];
      } else if !IsValidEmail(email) {
        newErrors := newErrors[Email := EmailInvalid];
      }
      if formData[Password] == "" {
        newErrors := newErrors[Password := PasswordMissing];
      }
      errors := newErrors;
      valid := |newErrors.Keys| == 0;
      assert valid <==> newErrors == map[] by {
        if |newErrors.Keys| == 0 {
          assert forall k :: k !in newErrors.Keys;
        }
      }
    }

    /**
     * `handleSubmit`: an invalid form calls nothing. A valid one sends the
     * whole form to `login`; success goes to the dashboard, failure shows
     * only the thrown message.
     */
    method HandleSubmit(attempt: Attempt) returns (sent: Option<map<Field, string>>, navigateTo: Option<string>)
      requires Valid()
      modifies this
      ensures Valid() && formData == old(formData)
      ensures old(FieldErrors()) != map[] ==>
        sent.None? && navigateTo.None? && errors == old(FieldErrors()) && loading == old(loading)
      ensures old(FieldErrors()) == map[] ==> sent == Some(formData) && !loading
      ensures old(FieldErrors()) == map[] && attempt.Succeeded? ==> navigateTo == Some("dashboard") && errors == map[]
      ensures old(FieldErrors()) == map[] && attempt.Failed? ==>
        navigateTo.None? && errors == map[Submit := attempt.message]
    {
      sent, navigateTo := None, None;
      var valid := ValidateForm();
      if !valid {
        return;
      }
      loading := true;
      sent := Some(formData);
      match attempt {
        case Succeeded =>
          navigateTo := Some("dashboard");
        case Failed(message) =>
          errors := map[Submit := message];
      }
      loading := false;
    }
  }
}
