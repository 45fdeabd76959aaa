/** The sign-in form, discord-frontend/src/components/auth/LoginForm.tsx:
    the error ladder of `validateForm`, `handleInputChange`, and
    `handleSubmit`, which sends nothing for an invalid form. The sign-in
    request goes over the network; its outcome is a parameter. */
module LoginForm {
  import opened Text
  import opened FormChecks

  /** The two inputs, named as in the form. */
  datatype LoginField = EmailField | PasswordField

  /** The `errors` object: at most one message per field. */
  datatype LoginErrors = LoginErrors(email: Option<string>, password: Option<string>, general: Option<string>)

  const NoErrors: LoginErrors := LoginErrors(None, None, None)
  const InvalidCredentials: string := "Invalid email or password. Please try again."

  const EmailRequired: string := "Email is required"
  const EmailMalformed: string := "Please enter a valid email"
  const PasswordRequired: string := "Password is required"
  const PasswordTooShort: string := "Password must be at least 6 characters"

  /** The email's message: required when empty, else a shape error. */
  function EmailError(email: string): (r: Option<string>)
    ensures r.None? <==> LooksLikeEmail(email)
  {
    if email == "" then Some(EmailRequired)
    else if !LooksLikeEmail(email) then Some(EmailMalformed)
    else None
  }

  /** The password's message: required when empty, else a length error
      under 6 characters. */
  function PasswordError(password: string): (r: Option<string>)
    ensures r.None? <==> |password| >= 6
  {
    if password == "" then Some(PasswordRequired)
    else if |password| < 6 then Some(PasswordTooShort)
    else None
  }

  /** The form as the user has filled it in. */
  class LoginFormState {
    var email: string
    var password: string
    var errors: LoginErrors

    constructor ()
      ensures email == "" && password == "" && errors == NoErrors
    {
      email := "";
      password := "";
      errors := NoErrors;
    }

    /** `handleInputChange`: the named field takes the value, and that
        field's error, if it is set to a non-empty message, is cleared;
        nothing else changes. */
    method HandleInputChange(field: LoginField, value: string)
      modifies this
      ensures field == EmailField ==>
                email == value && password == old(password)
                && errors == if Truthy(old(errors).email) then old(errors).(email := None) else old(errors)
      ensures field == PasswordField ==>
                password == value && email == old(email)
                && errors == if Truthy(old(errors).password) then old(errors).(password := None) else old(errors)
    {
      match field
      case EmailField =>
        email := value;
        if Truthy(errors.email) {
          errors := errors.(email := None);
        }
      case PasswordField =>
        password := value;
        if Truthy(errors.password) {
          errors := errors.(password := None);
        }
    }

    /** `validateForm()`: the errors object is rebuilt field by field (a
        general error goes), and the form is valid exactly when it is empty. */
    method ValidateForm() returns (valid: bool)
      modifies this`errors
      ensures errors == LoginErrors(EmailError(email), PasswordError(password), None)
      ensures valid <==> LooksLikeEmail(email) && |password| >= 6
    {
      var newErrors := NoErrors;
      if email == "" {
        newErrors := newErrors.(email := Some(EmailRequired));
      } else if !LooksLikeEmail(email) {
        newErrors := newErrors.(email := Some(EmailMalformed));
      }
      if password == "" {
        newErrors := newErrors.(password := Some(PasswordRequired));
      } else if |password| < 6 {
        newErrors := newErrors.(password := Some(PasswordTooShort));
      }
      errors := newErrors;
      valid := newErrors == NoErrors;
    }

    /** `handleSubmit`: an invalid form sends no request and shows its
        errors; a valid one sends the credentials, a failed sign-in shows
        only the general message, and a successful one goes to the chat
        page (`toChat`). */
    method HandleSubmit(succeeded: bool) returns (request: Option<(string, string)>, toChat: bool)
      modifies this`errors
      ensures request.Some? <==> LooksLikeEmail(email) && |password| >= 6
      ensures toChat <==> request.Some? && succeeded
      ensures request.Some? ==> request.value == (email, password)
                                && errors == (if succeeded then NoErrors else LoginErrors(None, None, Some(InvalidCredentials)))
      ensures request.None? ==> errors == LoginErrors(EmailError(email), PasswordError(password), None)
    {
      var valid := ValidateForm();
      if !valid {
        return None, false;
      }
      errors := NoErrors;
      request := Some((email, password));
      toChat := succeeded;
      if !succeeded {
        errors := LoginErrors(None, None, Some(InvalidCredentials));
      }
    }
  }
}
