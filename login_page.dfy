/** The sign-in page: a login tab and a registration tab sharing one set of fields, the two
    password validators, and the checks each form runs, in order, before it calls the
    authentication provider. */
module LoginPage {
  import opened Optional
  import opened Text
  import opened TaskSchema
  import opened UserSchema
  import AuthContext

  /** The messages the page can show. */
  datatype Message =
    | PasswordTooShort | PasswordsDiffer | LoginFieldsMissing | LoginRejected
    | RegisterFieldsMissing | EmailInvalid | RegisterRejected

  /** The text the page shows for each message. */
  function MessageText(m: Message): (r: string)
    ensures r != ""
  {
    match m
    case PasswordTooShort => "Password must be at least 6 characters long"
    case PasswordsDiffer => "Passwords do not match"
    case LoginFieldsMissing => "Please fill in both email/username and password."
    case LoginRejected => "Invalid email/username or password. Please try again."
    case RegisterFieldsMissing => "All fields are required."
    case EmailInvalid => "Please enter a valid email address."
    case RegisterRejected => "Registration failed. This email or username may already be in use."
  }

  /** `validatePassword`: no message for an empty password, the length message for one shorter
      than six characters. */
  function ValidatePassword(pwd: string): (r: Option<Message>)
    ensures r.Some? <==> 0 < Utf16Length(pwd) < 6
    ensures r.Some? ==> r.value == PasswordTooShort
  {
    if |pwd| == 0 then None
    else if Utf16Length(pwd) < 6 then Some(PasswordTooShort)
    else None
  }

  /** `validateConfirmPassword`: no message while the confirmation is empty; otherwise a message
      exactly when the two differ. */
  function ValidateConfirmPassword(pwd: string, confirmPwd: string): (r: Option<Message>)
    ensures r.Some? <==> confirmPwd != "" && pwd != confirmPwd
    ensures r.Some? ==> r.value == PasswordsDiffer
  {
    if |confirmPwd| == 0 then None
    else if pwd != confirmPwd then Some(PasswordsDiffer)
    else None
  }

  datatype Mode = LoginMode | RegisterMode

  /** `login(email.trim(), password)` */
  datatype LoginRequest = LoginRequest(identifier: string, password: string)

  /** `register(name.trim(), email.trim(), username.trim() || undefined, password)` */
  datatype RegisterRequest = RegisterRequest(name: string, email: string, username: Option<string>, password: string)

  /** `handleLogin`'s check: both fields must be non-blank; the identifier goes out trimmed and
      the password as typed. */
  function CheckLogin(email: string, password: string): (r: Option<LoginRequest>)
    ensures r.None? <==> IsBlank(email) || IsBlank(password)
    ensures r.Some? ==> r.value == LoginRequest(Trim(email), password) && r.value.identifier != ""
  {
    if Trim(email) == "" || Trim(password) == "" then None else Some(LoginRequest(Trim(email), password))
  }

  /** Where `handleRegister` stops: the first failing check, or the call it makes. */
  datatype RegisterVerdict = MissingField | BadEmail | WeakPassword | Mismatch | Submit(request: RegisterRequest)

  /** The message the page shows for a verdict that stops the registration. */
  function VerdictMessage(v: RegisterVerdict): (r: Option<Message>)
    ensures r.None? <==> v.Submit?
  {
    match v
    case MissingField => Some(RegisterFieldsMissing)
    case BadEmail => Some(EmailInvalid)
    case WeakPassword => Some(PasswordTooShort)
    case Mismatch => Some(PasswordsDiffer)
    case Submit(_) => None
  }

  /** `!name.trim() || !email.trim() || !password.trim() || !confirmPassword.trim()` fails. */
  predicate Filled(name: string, email: string, password: string, confirmPassword: string) {
    !IsBlank(name) && !IsBlank(email) && !IsBlank(password) && !IsBlank(confirmPassword)
  }

  /** `handleRegister`'s checks, in the order the page runs them: every field but the username
      non-blank, then the e-mail shape of the trimmed e-mail, then the password length, then the
      confirmation; the first failure stops the registration. */
  function CheckRegistration(name: string, email: string, username: string, password: string, confirmPassword: string)
    : (r: RegisterVerdict)
    ensures r == MissingField <==> !Filled(name, email, password, confirmPassword)
    ensures r == BadEmail <==> Filled(name, email, password, confirmPassword) && !FormEmailShape(Trim(email))
    ensures r == WeakPassword <==>
      Filled(name, email, password, confirmPassword) && FormEmailShape(Trim(email)) && Utf16Length(password) < 6
    ensures r == Mismatch <==>
      Filled(name, email, password, confirmPassword) && FormEmailShape(Trim(email)) && Utf16Length(password) >= 6 && password != confirmPassword
    ensures r.Submit? <==>
      Filled(name, email, password, confirmPassword) && FormEmailShape(Trim(email)) && Utf16Length(password) >= 6 && password == confirmPassword
    ensures r.Submit? ==>
      r.request == RegisterRequest(Trim(name), Trim(email), if IsBlank(username) then None else Some(Trim(username)), password)
  {
    if !Filled(name, email, password, confirmPassword) then MissingField
    else if !FormEmailShape(Trim(email)) then BadEmail
    else if ValidatePassword(password).Some? then WeakPassword
    else if ValidateConfirmPassword(password, confirmPassword).Some? then Mismatch
    else Submit(RegisterRequest(Trim(name), Trim(email), if IsBlank(username) then None else Some(Trim(username)), password))
  }

  /** Where the registration stops decides the two field messages: the password message exactly
      on a short password, the confirmation message exactly on a mismatch, and neither on success. */
  lemma FieldMessagesFollowVerdict(name: string, email: string, username: string, password: string, confirmPassword: string)
    ensures var v := CheckRegistration(name, email, username, password, confirmPassword);
      && (v.WeakPassword? ==> ValidatePassword(password) == Some(PasswordTooShort))
      && (v.Mismatch? ==> ValidateConfirmPassword(password, confirmPassword) == Some(PasswordsDiffer))
      && (v.Submit? ==> ValidatePassword(password).None? && ValidateConfirmPassword(password, confirmPassword).None?)
  {
    if !IsBlank(password) {
      assert password != "";
    }
  }

  /** The form's e-mail rule is stricter than the User schema's: an address the form accepts
      still matches the schema's rule after the schema lower-cases and trims it. */
  lemma FormEmailPassesSchema(e: string)
    requires FormEmailShape(e)
    ensures SchemaEmailShape(Trim(ToLower(e)))
  {
    var i, j :| 0 < i && i + 1 < j && j + 1 < |e| && e[i] == '@' && e[j] == '.' &&
      forall k | 0 <= k < |e| && k != i :: e[k] != '@';
    var l := ToLower(e);
    LowerKeepsLayout(e, i);
    LowerKeepsLayout(e, j);
    forall k | 0 <= k < |l| ensures !IsSpace(l[k]) {
      LowerKeepsLayout(e, k);
    }
    TrimFixesTrimmed(l);
  }

  /** What a successful registration check hands over meets the User schema's rules for the
      name, the e-mail and the password. */
  lemma SubmittedRegistrationPassesSchema(v: RegisterVerdict, id: UserId, username: string)
    requires v.Submit?
    requires exists name, email, un, pwd, confirm :: v == CheckRegistration(name, email, un, pwd, confirm)
    ensures var u := CastUser(User(id, v.request.name, v.request.email, username, Some(Plain(v.request.password)), None));
      && u.name != "" && SchemaEmailShape(u.email) && PasswordRule(u)
  {
    var name, email, un, pwd, confirm :| v == CheckRegistration(name, email, un, pwd, confirm);
    TrimFixpoint(name);
    FormEmailPassesSchema(Trim(email));
  }

  /** The account the page's call creates as written. The provider's `register` takes
      `(username, password)`, so it keeps the first two of the four arguments: the trimmed name
      becomes the username and the trimmed e-mail the password, and the typed password is lost. */
  function AccountAsWritten(req: RegisterRequest): (r: AuthContext.StoredUser)
    ensures r.username == req.name
    ensures r.password == req.password <==> req.password == req.email
  {
    AuthContext.StoredUser(req.name, req.email)
  }

  /** With the account as written, the new user cannot sign in with the password they typed
      (unless it equals their e-mail), and the login tab, which sends the same e-mail field and
      password, finds no new account to sign in to. */
  lemma RegisterAsWrittenLocksOut(users: seq<AuthContext.StoredUser>, req: RegisterRequest)
    requires AuthContext.RegisterResult(users, AccountAsWritten(req).username, AccountAsWritten(req).password).Some?
    ensures var next := AuthContext.RegisterResult(users, AccountAsWritten(req).username, AccountAsWritten(req).password).value;
      && (AuthContext.LoginResult(next, req.name, req.password).Some? <==> req.password == req.email)
      && (AuthContext.LoginResult(next, req.email, req.password).Some? <==>
            AuthContext.LoginResult(users, req.email, req.password).Some? || (req.name == req.email && req.password == req.email))
  {
  }

  /** The form with name `Ada`, e-mail `ada@x.io` and password `secret1`, registered as written
      into an empty list: the login tab's sign-in with the same fields is refused. */
  lemma RegisterAsWrittenExample()
    ensures AccountAsWritten(RegisterRequest("Ada", "ada@x.io", None, "secret1")) == AuthContext.StoredUser("Ada", "ada@x.io")
    ensures AuthContext.RegisterResult([], "Ada", "ada@x.io") == Some([AuthContext.StoredUser("Ada", "ada@x.io")])
    ensures AuthContext.LoginResult([AuthContext.StoredUser("Ada", "ada@x.io")], "ada@x.io", "secret1").None?
  {
    var account := AuthContext.StoredUser("Ada", "ada@x.io");
    assert account.username != "ada@x.io" by {
      assert |account.username| == 3;
    }
    var empty: seq<AuthContext.StoredUser> := [];
    assert empty + [account] == [account];
    assert AuthContext.StoredUser("ada@x.io", "secret1") !in [account];
  }

  /** The account the registration evidently means to create: the login tab signs in with the
      trimmed e-mail field and the typed password, so those are the username and password. */
  function IntendedAccount(req: RegisterRequest): (r: AuthContext.StoredUser)
    ensures AuthContext.LoginResult([r], req.email, req.password) == Some(AuthContext.SessionUser(req.email))
  {
    AuthContext.StoredUser(req.email, req.password)
  }

  /** With the intended account, a registration the page accepts and the provider stores is
      followed by a working sign-in from the login tab with the very same fields. */
  lemma RegisterThenSignIn(users: seq<AuthContext.StoredUser>, name: string, email: string, username: string,
                           password: string, confirmPassword: string)
    requires CheckRegistration(name, email, username, password, confirmPassword).Submit?
    requires var a := IntendedAccount(CheckRegistration(name, email, username, password, confirmPassword).request);
      AuthContext.RegisterResult(users, a.username, a.password).Some?
    ensures var a := IntendedAccount(CheckRegistration(name, email, username, password, confirmPassword).request);
      var next := AuthContext.RegisterResult(users, a.username, a.password).value;
      && CheckLogin(email, password) == Some(LoginRequest(a.username, a.password))
      && AuthContext.LoginResult(next, a.username, a.password) == Some(AuthContext.SessionUser(a.username))
  {
    var a := IntendedAccount(CheckRegistration(name, email, username, password, confirmPassword).request);
    AuthContext.RegisterThenLogin(users, a.username, a.password, a);
  }

  /** The field messages describe the fields as they are: in the registration tab they are the
      two validators' verdicts, and the login tab never shows them. */
  predicate FieldMessagesShown(mode: Mode, password: string, confirmPassword: string,
                               passwordError: Option<Message>, confirmPasswordError: Option<Message>) {
    && (mode == RegisterMode ==>
          passwordError == ValidatePassword(password)
          && confirmPasswordError == ValidateConfirmPassword(password, confirmPassword))
    && (mode == LoginMode ==> passwordError.None? && confirmPasswordError.None?)
  }

  /** The page's state cells. */
  class LoginForm {
    var mode: Mode
    var name: string
    var email: string
    var username: string
    var password: string
    var confirmPassword: string
    var error: Option<Message>
    var passwordError: Option<Message>
    var confirmPasswordError: Option<Message>

    /** The field messages always describe the fields as they are now: in the registration tab
        they are the two validators' verdicts, and the login tab never shows them. */
    ghost predicate Valid()
      reads this
    {
      FieldMessagesShown(mode, password, confirmPassword, passwordError, confirmPasswordError)
    }

    /** Where `handleRegister` would stop on the fields as they are. */
    function Verdict(): RegisterVerdict
      reads this
    {
      CheckRegistration(name, email, username, password, confirmPassword)
    }

    constructor()
      ensures Valid()
      ensures mode == LoginMode && name == "" && email == "" && username == "" && password == "" && confirmPassword == ""
      ensures error.None? && passwordError.None? && confirmPasswordError.None?
    {
      mode := LoginMode;
      name, email, username, password, confirmPassword := "", "", "", "", "";
      error, passwordError, confirmPasswordError := None, None, None;
    }

    /** `handleTabChange`: switches tab and clears every field and every message. */
    method HandleTabChange(value: Mode)
      modifies this
      ensures Valid()
      ensures mode == value && name == "" && email == "" && username == "" && password == "" && confirmPassword == ""
      ensures error.None? && passwordError.None? && confirmPasswordError.None?
    {
      mode := value;
      name, email, username, password, confirmPassword := "", "", "", "", "";
      error, passwordError, confirmPasswordError := None, None, None;
    }

    /** The plain `onChange` setters of the name, e-mail (or identifier) and username fields. */
    method SetText(newName: string, newEmail: string, newUsername: string)
      requires Valid()
      modifies this
      ensures Valid()
      ensures name == newName && email == newEmail && username == newUsername
      ensures mode == old(mode) && password == old(password) && confirmPassword == old(confirmPassword)
      ensures error == old(error) && passwordError == old(passwordError) && confirmPasswordError == old(confirmPasswordError)
    {
      name, email, username := newName, newEmail, newUsername;
    }

    /** `handlePasswordChange` (the login tab's plain setter does the same there): the password
        is revalidated only in the registration tab, and the confirmation only once it is
        non-empty. */
    method HandlePasswordChange(newPassword: string)
      requires Valid()
      modifies this
      ensures Valid()
      ensures password == newPassword
      ensures mode == old(mode) && name == old(name) && email == old(email) && username == old(username)
      ensures confirmPassword == old(confirmPassword) && error == old(error)
      ensures mode == LoginMode ==>
        passwordError == old(passwordError) && confirmPasswordError == old(confirmPasswordError)
      ensures mode == RegisterMode ==> passwordError == ValidatePassword(newPassword)
      ensures mode == RegisterMode && confirmPassword == "" ==> confirmPasswordError == old(confirmPasswordError)
    {
      password := newPassword;
      if mode == RegisterMode {
        passwordError := ValidatePassword(newPassword);
        if confirmPassword != "" {
          confirmPasswordError := ValidateConfirmPassword(newPassword, confirmPassword);
        }
      }
    }

    /** `handleConfirmPasswordChange`: the confirmation is rechecked in the registration tab. */
    method HandleConfirmPasswordChange(newConfirmPassword: string)
      requires Valid()
      modifies this
      ensures Valid()
      ensures confirmPassword == newConfirmPassword
      ensures mode == old(mode) && name == old(name) && email == old(email) && username == old(username)
      ensures password == old(password) && error == old(error) && passwordError == old(passwordError)
      ensures confirmPasswordError == if mode == RegisterMode then ValidateConfirmPassword(password, newConfirmPassword)
                                      else old(confirmPasswordError)
    {
      confirmPassword := newConfirmPassword;
      if mode == RegisterMode {
        confirmPasswordError := ValidateConfirmPassword(password, newConfirmPassword);
      }
    }

    /** `handleLogin` up to the call: the request it makes, or the message when a field is blank. */
    method HandleLogin() returns (call: Option<LoginRequest>)
      requires Valid()
      modifies this
      ensures Valid()
      ensures call == CheckLogin(old(email), old(password))
      ensures error == if call.None? then Some(LoginFieldsMissing) else None
      ensures mode == old(mode) && name == old(name) && email == old(email) && username == old(username)
      ensures password == old(password) && confirmPassword == old(confirmPassword)
      ensures passwordError == old(passwordError) && confirmPasswordError == old(confirmPasswordError)
    {
      call := CheckLogin(email, password);
      ShowError(if call.None? then Some(LoginFieldsMissing) else None);
    }

    /** `setError`: shows a message (or none) above the form and changes nothing else. */
    method ShowError(e: Option<Message>)
      requires Valid()
      modifies this
      ensures Valid()
      ensures error == e
      ensures mode == old(mode) && name == old(name) && email == old(email) && username == old(username)
      ensures password == old(password) && confirmPassword == old(confirmPassword)
      ensures passwordError == old(passwordError) && confirmPasswordError == old(confirmPasswordError)
    {
      error := e;
    }

    /** `handleRegister` up to the call: the checks run in order (`CheckRegistration`); a failure
        shows its message (the password and confirmation failures also in their fields) and makes
        no call; success clears both field messages and makes the call. */
    method HandleRegister() returns (call: Option<RegisterRequest>)
      requires Valid() && mode == RegisterMode
      modifies this
      ensures Valid()
      ensures call == var v := old(Verdict()); if v.Submit? then Some(v.request) else None
      ensures error == VerdictMessage(old(Verdict()))
      ensures mode == old(mode) && name == old(name) && email == old(email) && username == old(username)
      ensures password == old(password) && confirmPassword == old(confirmPassword)
    {
      var v := Verdict();
      FieldMessagesFollowVerdict(name, email, username, password, confirmPassword);
      ShowVerdict(v);
      call := if v.Submit? then Some(v.request) else None;
    }

    /** What `handleRegister` shows for a verdict: its message, the length message in the
        password field on a short password, the mismatch message in the confirmation field on a
        mismatch, and neither field message on success. */
    method ShowVerdict(v: RegisterVerdict)
      requires Valid() && mode == RegisterMode
      requires v.WeakPassword? ==> ValidatePassword(password) == Some(PasswordTooShort)
      requires v.Mismatch? ==> ValidateConfirmPassword(password, confirmPassword) == Some(PasswordsDiffer)
      requires v.Submit? ==> ValidatePassword(password).None? && ValidateConfirmPassword(password, confirmPassword).None?
      modifies this
      ensures Valid()
      ensures error == VerdictMessage(v)
      ensures v.WeakPassword? ==> passwordError == Some(PasswordTooShort)
      ensures v.Mismatch? ==> confirmPasswordError == Some(PasswordsDiffer)
      ensures v.Submit? ==> passwordError.None? && confirmPasswordError.None?
      ensures mode == old(mode) && name == old(name) && email == old(email) && username == old(username)
      ensures password == old(password) && confirmPassword == old(confirmPassword)
    {
      error := VerdictMessage(v);
      match v {
        case MissingField =>
        case BadEmail =>
        case WeakPassword =>
          passwordError := Some(PasswordTooShort);
        case Mismatch =>
          confirmPasswordError := Some(PasswordsDiffer);
        case Submit(_) =>
          passwordError := None;
          confirmPasswordError := None;
      }
    }

    /** The answer to a login or registration call: a refusal shows the page's message; success
        navigates away, which is outside the model. */
    method HandleAnswer(success: bool)
      requires Valid()
      modifies this
      ensures Valid()
      ensures error == if success then old(error) else Some(if mode == LoginMode then LoginRejected else RegisterRejected)
      ensures mode == old(mode) && name == old(name) && email == old(email) && username == old(username)
      ensures password == old(password) && confirmPassword == old(confirmPassword)
      ensures passwordError == old(passwordError) && confirmPasswordError == old(confirmPasswordError)
    {
      if !success {
        error := Some(if mode == LoginMode then LoginRejected else RegisterRejected);
      }
    }
  }
}
