/**
 * SignupPage.jsx: the sign-up form's state (`formData`, `errors`,
 * `loading`), its validation rules, the error clearing on edit and the
 * gate in front of `signup`. The `signup` call and `onNavigate` are the
 * page's outside world: the first is an `Attempt` passed in, the second is
 * returned as the page to go to.
 */
module SignupPage {
  import opened Js
  import opened Text
  import opened Helpers
  import opened Forms

  const UsernameRequired := "Username is required"
  const UsernameTooShort := "Username must be at least 3 characters long"
  const ConfirmRequired := "Please confirm your password"
  const ConfirmMismatch := "Passwords do not match"

  /** The only fields sent to `signup`: the confirmation stays on the page. */
  datatype SignupData = SignupData(username: string, email: string, password: string)

  function UsernameError(username: string): (r: Option<string>)
    ensures r.None? <==> |username| >= 3
    ensures username == "" ==> r == Some(UsernameRequired)
    ensures username != "" && |username| < 3 ==> r == Some(UsernameTooShort)
  {
    if username == "" then Some(UsernameRequired)
    else if |username| < 3 then Some(UsernameTooShort)
    else None
  }

  /** The `validatePassword` messages joined by `, `, when there are any. */
  function PasswordError(password: string): (r: Option<string>)
    ensures r.None? <==> Strong(password)
    ensures r.Some? ==> r.value == Join(PasswordErrors(Some(password)), ", ")
  {
    PasswordErrorsEmptyIff(Some(password));
    var messages := PasswordErrors(Some(password));
    if |messages| > 0 then Some(Join(messages, ", ")) else None
  }

  function ConfirmError(password: string, confirm: string): (r: Option<string>)
    ensures r.None? <==> confirm != "" && confirm == password
    ensures confirm == "" ==> r == Some(ConfirmRequired)
    ensures confirm != "" && confirm != password ==> r == Some(ConfirmMismatch)
  {
    if confirm == "" then Some(ConfirmRequired)
    else if password != confirm then Some(ConfirmMismatch)
    else None
  }

  /** The errors `validateForm` finds for the four fields. */
  function FormErrors(username: string, email: string, password: string, confirm: string): Errors
  {
    Put(Put(Put(Put(map[], Username, UsernameError(username)), Email, EmailError(email)),
      Password, PasswordError(password)), ConfirmPassword, ConfirmError(password, confirm))
  }

  /**
   * The form is valid, with no error at all, exactly when the username has
   * three characters or more, the email is valid, the password is strong
   * and the confirmation repeats it.
   */
  lemma ValidIff(username: string, email: string, password: string, confirm: string)
    ensures FormErrors(username, email, password, confirm) == map[] <==>
      |username| >= 3 && IsValidEmail(email) && Strong(password) && confirm == password
  {
    var e1 := Put(map[], Username, UsernameError(username));
    var e2 := Put(e1, Email, EmailError(email));
    var e3 := Put(e2, Password, PasswordError(password));
    var e4 := Put(e3, ConfirmPassword, ConfirmError(password, confirm));
    if e4 == map[] {
      assert ConfirmPassword !in e4 && Password !in e3 && Email !in e2 && Username !in e1;
    }
    if Strong(password) {
      assert password != "";
    }
  }

  /** Each field reports its own rule: the error map names exactly the failing fields. */
  lemma ErrorsNameFailingFields(username: string, email: string, password: string, confirm: string)
    ensures var errors := FormErrors(username, email, password, confirm);
      Submit !in errors
      && (Username in errors <==> |username| < 3)
      && (Email in errors <==> !IsValidEmail(email))
      && (Password in errors <==> !Strong(password))
      && (ConfirmPassword in errors <==> confirm == "" || confirm != password)
  {
  }

  /** The password step of `validateForm`: run `validatePassword` and join what it reports. */
  method PasswordField(password: string) returns (message: Option<string>)
    ensures message == PasswordError(password)
  {
    var passwordErrors := ValidatePassword(Some(password));
    message := if |passwordErrors| > 0 then Some(Join(passwordErrors, ", ")) else None;
  }

  class SignupPage {
    var formData: map<Field, string>
    var errors: Errors
    var loading: bool

    /** The four fields are always there: they start empty and are only ever overwritten. */
    ghost predicate Valid()
      reads this
    {
      Username in formData && Email in formData && Password in formData && ConfirmPassword in formData
    }

    constructor ()
      ensures Valid() && errors == map[] && !loading
      ensures formData == map[Username := "", Email := "", Password := "", ConfirmPassword := ""]
    {
      formData := map[Username := "", Email := "", Password := "", ConfirmPassword := ""];
      errors := map[];
      loading := false;
    }

    function FieldErrors(): Errors
      requires Valid()
      reads this
    {
      FormErrors(formData[Username], formData[Email], formData[Password], formData[ConfirmPassword])
    }

    /** `handleChange`: the field takes the value, and only that field's error is cleared. */
    method HandleChange(name: Field, value: string)
      requires Valid()
      modifies this
      ensures Valid()
      ensures formData == old(formData)[name := value]
      ensures errors == ClearOnEdit(old(errors), name) && loading == old(loading)
    {
      formData := formData[name := value];
      errors := ClearOnEdit(errors, name);
    }

    /** `validateForm`: the errors are replaced by the fresh ones, and the form is valid when there are none. */
    method ValidateForm() returns (valid: bool)
      requires Valid()
      modifies this
      ensures Valid() && formData == old(formData) && loading == old(loading)
      ensures errors == FieldErrors()
      ensures valid <==> errors == map[]
    {
      var newErrors: Errors := map[];
      var username := formData[Username];
      var usernameError := UsernameError(username);
      if usernameError.Some? {
        newErrors := newErrors[Username := usernameError.value];
      }

      var email := formData[Email];
      var emailError := EmailError(email);
      if emailError.Some? {
        newErrors := newErrors[Email := emailError.value];
      }

      var password := formData[Password];
      var passwordError := PasswordField(password);
      if passwordError.Some? {
        newErrors := newErrors[Password := passwordError.value];
      }

      var confirm := formData[ConfirmPassword];
      var confirmError := ConfirmError(password, confirm);
      if confirmError.Some? {
        newErrors := newErrors[ConfirmPassword := confirmError.value];
      }

      errors := newErrors;
      valid := |newErrors.Keys| == 0;
      assert valid <==> newErrors == map[] by {
        if |newErrors.Keys| == 0 {
          assert forall k :: k !in newErrors.Keys;
        }
      }
    }

    /**
     * `handleSubmit`: an invalid form calls nothing. A valid one sends the
     * username, email and password; success goes to the dashboard, failure
     * shows only the thrown message.
     */
    method HandleSubmit(attempt: Attempt) returns (sent: Option<SignupData>, navigateTo: Option<string>)
      requires Valid()
      modifies this
      ensures Valid() && formData == old(formData)
      ensures old(FieldErrors()) != map[] ==>
        sent.None? && navigateTo.None? && errors == old(FieldErrors()) && loading == old(loading)
      ensures old(FieldErrors()) == map[] ==>
        sent == Some(SignupData(formData[Username], formData[Email], formData[Password])) && !loading
      ensures old(FieldErrors()) == map[] && attempt.Succeeded? ==> navigateTo == Some("dashboard") && errors == map[]
      ensures old(FieldErrors()) == map[] && attempt.Failed? ==>
        navigateTo.None? && errors == map[Submit := attempt.message]
    {
      sent, navigateTo := None, None;
      var valid := ValidateForm();
      if !valid {
        return;
      }
      loading := true;
      sent := Some(SignupData(formData[Username], formData[Email], formData[Password]));
      match attempt {
        case Succeeded =>
          navigateTo := Some("dashboard");
        case Failed(message) =>
          errors := map[Submit := message];
      }
      loading := false;
    }
  }
}
