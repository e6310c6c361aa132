/** The registration form: its validation and the data it submits. */
module RegisterForm {
  import opened Common
  import opened Strings
  import opened Forms
  import AuthContext

  const NameTooShort := "Name must be at least 2 characters"
  const EmailRequired := "Email is required"
  const EmailInvalid := "Email is invalid"
  const PasswordRequired := "Password is required"
  const PasswordTooShort := "Password must be at least 6 characters"
  const PasswordsDiffer := "Passwords do not match"
  const MinName := 2
  const MinPassword := 6

  /** What the form accepts: a trimmed name of at least 2 characters, an
      e-mail matching the pattern, a password of at least 6 characters, and
      the same password typed twice. */
  predicate Accepts(f: Fields)
  {
    && |Trim(Get(f, "name"))| >= MinName
    && EmailLike(Get(f, "email"))
    && |Get(f, "password")| >= MinPassword
    && Get(f, "password") == Get(f, "confirmPassword")
  }

  /** `validate`: one message per failing field; the form is valid exactly
      when no message was recorded. The name is trimmed, the password is not. */
  method Validate(f: Fields) returns (errors: Fields, ok: bool)
    ensures ok <==> errors == map[]
    ensures ok <==> Accepts(f)
    ensures errors.Keys <= {"name", "email", "password", "confirmPassword"}
    ensures "name" in errors <==> |Trim(Get(f, "name"))| < MinName
    ensures "name" in errors ==> errors["name"] == NameTooShort
    ensures "email" in errors <==> !EmailLike(Get(f, "email"))
    ensures "email" in errors ==> errors["email"] == if Get(f, "email") == "" then EmailRequired else EmailInvalid
    ensures "password" in errors <==> |Get(f, "password")| < MinPassword
    ensures "password" in errors ==> errors["password"] == if Get(f, "password") == "" then PasswordRequired else PasswordTooShort
    ensures "confirmPassword" in errors <==> Get(f, "password") != Get(f, "confirmPassword")
    ensures "confirmPassword" in errors ==> errors["confirmPassword"] == PasswordsDiffer
  {
    errors := map[];
    if Get(f, "name") == "" || |Trim(Get(f, "name"))| < MinName {
      errors := errors["name" := NameTooShort];
    }
    if Get(f, "email") == "" {
      errors := errors["email" := EmailRequired];
    } else if !EmailLike(Get(f, "email")) {
      errors := errors["email" := EmailInvalid];
    }
    if Get(f, "password") == "" {
      errors := errors["password" := PasswordRequired];
    } else if |Get(f, "password")| < MinPassword {
      errors := errors["password" := PasswordTooShort];
    }
    if Get(f, "password") != Get(f, "confirmPassword") {
      errors := errors["confirmPassword" := PasswordsDiffer];
    }
    ok := errors.Keys == {};
    AcceptsIffNoMessage(f, errors);
  }

  /** The four per-field rules together are exactly what the form accepts. */
  lemma AcceptsIffNoMessage(f: Fields, errors: Fields)
    requires errors.Keys <= {"name", "email", "password", "confirmPassword"}
    requires "name" in errors <==> |Trim(Get(f, "name"))| < MinName
    requires "email" in errors <==> !EmailLike(Get(f, "email"))
    requires "password" in errors <==> |Get(f, "password")| < MinPassword
    requires "confirmPassword" in errors <==> Get(f, "password") != Get(f, "confirmPassword")
    ensures errors == map[] <==> Accepts(f)
  {
    if errors != map[] {
      var k :| k in errors.Keys;
    }
  }

  /** `const { confirmPassword, ...registerData } = formData`. */
  function Payload(f: Fields): (p: Fields)
    ensures "confirmPassword" !in p
    ensures forall k :: k != "confirmPassword" ==> (k in p <==> k in f) && (k in p ==> p[k] == f[k])
  {
    f - {"confirmPassword"}
  }

  /** `handleSubmit`: a form that is not accepted shows its messages and
      sends nothing; an accepted one sends its data without the confirmation
      (`request`), then a successful registration signs the user in and goes
      to "/home", and a failed one shows the session's message. */
  method HandleSubmit(form: FormState, session: AuthContext.Session, answer: AuthContext.Answer)
    returns (request: Option<Fields>, navigatedTo: Option<string>)
    modifies form, session
    ensures form.values == old(form.values)
    ensures form.errors == map[] <==> Accepts(form.values)
    ensures !Accepts(form.values) ==>
              && request == None && navigatedTo == None && form.apiError == old(form.apiError)
              && session.token == old(session.token) && session.user == old(session.user)
              && session.storedToken == old(session.storedToken) && session.storedUser == old(session.storedUser)
    ensures Accepts(form.values) ==> request == Some(Payload(form.values))
    ensures Accepts(form.values) && answer.Answered? ==>
              && navigatedTo == Some("/home") && form.apiError == old(form.apiError)
              && session.token == AuthContext.TokenOf(answer.data)
              && session.user == Some(AuthContext.Stripped(answer.data))
              && session.storedToken == Some(AuthContext.StoredForm(session.token))
              && session.storedUser == session.user
    ensures Accepts(form.values) && answer.Failed? ==>
              && navigatedTo == None
              && form.apiError == OrElse(answer.serverMessage, AuthContext.RegistrationFailed)
              && session.token == old(session.token) && session.user == old(session.user)
              && session.storedToken == old(session.storedToken) && session.storedUser == old(session.storedUser)
    ensures session.loading == old(session.loading)
  {
    var errors, ok := Validate(form.values);
    form.SetErrors(errors);
    if !ok {
      return None, None;
    }
    request := Some(Payload(form.values));
    var result := session.Register(answer);
    if result.success {
      navigatedTo := Some("/home");
    } else {
      form.SetApiError(result.message.value);
      navigatedTo := None;
    }
  }
}
