/** The sign-up form, discord-frontend/src/components/auth/RegisterForm.tsx:
    the error ladder of `validateStep1`, the send-code and verify-code
    handlers with their guards, and the username availability check. The
    requests go over the network; their outcomes are parameters. */
module RegisterForm {
  import opened Text
  import opened FormChecks
  import LoginForm

  /** The `errors` object: at most one message per field. */
  datatype RegisterErrors = RegisterErrors(
    username: Option<string>, email: Option<string>, password: Option<string>,
    confirmPassword: Option<string>, otp: Option<string>, general: Option<string>)

  const NoErrors: RegisterErrors := RegisterErrors(None, None, None, None, None, None)

  const UsernameRequired: string := "Username is required"
  const UsernameTooShort: string := "Username must be at least 3 characters"
  const PasswordRequired: string := "Password is required"
  const PasswordTooShort: string := "Password must be at least 8 characters"
  const ConfirmRequired: string := "Please confirm your password"
  const PasswordsDiffer: string := "Passwords do not match"
  const OtpLength: string := "Please enter the 6-digit OTP code"

  /** How a request ended: the server answered with success, the server
      answered with failure and a message (possibly empty), or the request
      itself failed. */
  datatype Reply = Succeeded | Declined(message: string) | Unreachable

  /** `usernameStatus`: null, or the state of the availability check. */
  datatype UsernameStatus = Available | Taken | Checking

  /** The fields the sign-up requests carry. */
  datatype SignUp = SignUp(username: string, email: string, password: string)

  /** The username's message: required when empty, else a length error
      under 3 characters. */
  function UsernameError(username: string): (r: Option<string>)
    ensures r.None? <==> |username| >= 3
  {
    if username == "" then Some(UsernameRequired)
    else if |username| < 3 then Some(UsernameTooShort)
    else None
  }

  /** The password's message: required when empty, else a length error
      under 8 characters. */
  function PasswordError(password: string): (r: Option<string>)
    ensures r.None? <==> |password| >= 8
  {
    if password == "" then Some(PasswordRequired)
    else if |password| < 8 then Some(PasswordTooShort)
    else None
  }

  /** The confirmation's message: required when empty, else a mismatch
      error. */
  function ConfirmError(password: string, confirmPassword: string): (r: Option<string>)
    ensures r.None? <==> confirmPassword != "" && confirmPassword == password
  {
    if confirmPassword == "" then Some(ConfirmRequired)
    else if password != confirmPassword then Some(PasswordsDiffer)
    else None
  }

  /** The errors `validateStep1` sets. The email ladder is the sign-in
      form's. */
  function Step1Errors(f: SignUp, confirmPassword: string): RegisterErrors {
    RegisterErrors(UsernameError(f.username), LoginForm.EmailError(f.email), PasswordError(f.password),
                   ConfirmError(f.password, confirmPassword), None, None)
  }

  /** Step one passes exactly when the username has 3 characters, the email
      has the expected shape, the password has 8 characters and the
      confirmation repeats it. */
  lemma Step1Passes(f: SignUp, confirmPassword: string)
    ensures Step1Errors(f, confirmPassword) == NoErrors
            <==> |f.username| >= 3 && LooksLikeEmail(f.email) && |f.password| >= 8 && confirmPassword == f.password
  {
  }

  /** A password the form accepts also meets the server's 6-character rule:
      the sign-up form is the stricter of the two. */
  lemma Step1MeetsSignInRule(f: SignUp, confirmPassword: string)
    requires Step1Errors(f, confirmPassword) == NoErrors
    ensures LoginForm.PasswordError(f.password).None? && LoginForm.EmailError(f.email).None?
  {
    Step1Passes(f, confirmPassword);
  }

  /** The form's state. */
  class RegisterFormState {
    var username: string
    var email: string
    var password: string
    var confirmPassword: string
    var otp: string
    var otpSent: bool
    var errors: RegisterErrors
    var usernameStatus: Option<UsernameStatus>

    constructor ()
      ensures username == "" && email == "" && password == "" && confirmPassword == "" && otp == ""
      ensures !otpSent && errors == NoErrors && usernameStatus.None?
    {
      username, email, password, confirmPassword, otp := "", "", "", "", "";
      otpSent := false;
      errors := NoErrors;
      usernameStatus := None;
    }

    function Fields(): SignUp
      reads this
    {
      SignUp(username, email, password)
    }

    /** `validateStep1()`: the errors object is rebuilt field by field. */
    method ValidateStep1() returns (valid: bool)
      modifies this`errors
      ensures errors == Step1Errors(Fields(), confirmPassword)
      ensures valid <==> errors == NoErrors
    {
      var newErrors := NoErrors;
      if username == "" {
        newErrors := newErrors.(username := Some(UsernameRequired));
      } else if |username| < 3 {
        newErrors := newErrors.(username := Some(UsernameTooShort));
      }
      if email == "" {
        newErrors := newErrors.(email := Some(LoginForm.EmailRequired));
      } else if !LooksLikeEmail(email) {
        newErrors := newErrors.(email := Some(LoginForm.EmailMalformed));
      }
      if password == "" {
        newErrors := newErrors.(password := Some(PasswordRequired));
      } else if |password| < 8 {
        newErrors := newErrors.(password := Some(PasswordTooShort));
      }
      if confirmPassword == "" {
        newErrors := newErrors.(confirmPassword := Some(ConfirmRequired));
      } else if password != confirmPassword {
        newErrors := newErrors.(confirmPassword := Some(PasswordsDiffer));
      }
      errors := newErrors;
      valid := newErrors == NoErrors;
    }

    /** `handleSendOtp`: nothing is sent unless step one passes; then the
        code is requested, and only a successful answer moves on to the code
        step. */
    method HandleSendOtp(reply: Reply) returns (request: Option<SignUp>)
      modifies this`errors, this`otpSent
      ensures request.Some? <==> Step1Errors(old(Fields()), confirmPassword) == NoErrors
      ensures request.Some? ==> request.value == Fields()
      ensures request.None? ==> errors == Step1Errors(Fields(), confirmPassword) && otpSent == old(otpSent)
      ensures request.Some? && reply == Succeeded ==> otpSent && errors == NoErrors
      ensures request.Some? && reply.Declined? ==>
                otpSent == old(otpSent)
                && errors == NoErrors.(general := Some(if reply.message != "" then reply.message else "OTP sending failed"))
      ensures request.Some? && reply == Unreachable ==>
                otpSent == old(otpSent) && errors == NoErrors.(general := Some("Failed to send OTP. Please try again."))
    {
      var valid := ValidateStep1();
      if !valid {
        return None;
      }
      errors := NoErrors;
      request := Some(Fields());
      match reply
      case Succeeded => otpSent := true;
      case Declined(message) =>
        errors := NoErrors.(general := Some(if message != "" then message else "OTP sending failed"));
      case Unreachable =>
        errors := NoErrors.(general := Some("Failed to send OTP. Please try again."));
    }

    /** `handleVerifyOtp`: a code that is not exactly 6 characters long is
        refused before any request; otherwise the account is registered and
        a successful answer leads to the sign-in page. */
    method HandleVerifyOtp(reply: Reply) returns (request: Option<(SignUp, string)>, toSignIn: bool)
      modifies this`errors
      ensures request.Some? <==> |otp| == 6
      ensures request.None? ==> errors == NoErrors.(otp := Some(OtpLength)) && !toSignIn
      ensures request.Some? ==> request.value == (Fields(), otp)
      ensures toSignIn <==> request.Some? && reply == Succeeded
      ensures request.Some? && reply.Declined? ==>
                errors == NoErrors.(general := Some(if reply.message != "" then reply.message else "Registration failed"))
      ensures request.Some? && reply == Unreachable ==>
                errors == NoErrors.(general := Some("Verification failed. Please try again"))
      ensures toSignIn ==> errors == NoErrors
    {
      if otp == "" || |otp| != 6 {
        errors := NoErrors.(otp := Some(OtpLength));
        return None, false;
      }
      errors := NoErrors;
      request := Some((Fields(), otp));
      toSignIn := false;
      match reply
      case Succeeded => toSignIn := true;
      case Declined(message) =>
        errors := NoErrors.(general := Some(if message != "" then message else "Registration failed"));
      case Unreachable =>
        errors := NoErrors.(general := Some("Verification failed. Please try again"));
    }

    /** `checkUsernameAvailability(name)` (after its debounce): a name under
        3 characters clears the status and asks nothing; otherwise the
        server is asked, and its answer (None when the request failed) sets
        the status. */
    method CheckUsernameAvailability(name: string, available: Option<bool>) returns (requested: bool)
      modifies this`usernameStatus
      ensures requested <==> |name| >= 3
      ensures !requested ==> usernameStatus.None?
      ensures requested ==> usernameStatus == (if available.None? then None
                                               else if available.value then Some(Available) else Some(Taken))
    {
      if name == "" || |name| < 3 {
        usernameStatus := None;
        return false;
      }
      usernameStatus := Some(Checking);
      requested := true;
      if available.None? {
        usernameStatus := None;
      } else if available.value {
        usernameStatus := Some(Available);
      } else {
        usernameStatus := Some(Taken);
      }
    }
  }
}
