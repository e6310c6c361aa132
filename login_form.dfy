/** The login form: its validation, the redirect after signing in, and the
    error clearing on edit. */
module LoginForm {
  import opened Common
  import opened Strings
  import opened Forms
  import AuthContext
  import CommentSection

  const EmailRequired := "Email is required"
  const EmailInvalid := "Email is invalid"
  const PasswordRequired := "Password is required"
  const DefaultTarget := "/home"

  /** What the form accepts: an e-mail matching the pattern and any
      non-empty password. */
  predicate Accepts(f: Fields)
  {
    EmailLike(Get(f, "email")) && Get(f, "password") != ""
  }

  /** `validate`: the e-mail is required and must match the pattern; the
      password is only required. */
  method Validate(f: Fields) returns (errors: Fields, ok: bool)
    ensures ok <==> errors == map[]
    ensures ok <==> Accepts(f)
    ensures errors.Keys <= {"email", "password"}
    ensures "email" in errors <==> !EmailLike(Get(f, "email"))
    ensures "email" in errors ==> errors["email"] == if Get(f, "email") == "" then EmailRequired else EmailInvalid
    ensures "password" in errors <==> Get(f, "password") == ""
    ensures "password" in errors ==> errors["password"] == PasswordRequired
  {
    errors := map[];
    if Get(f, "email") == "" {
      errors := errors["email" := EmailRequired];
    } else if !EmailLike(Get(f, "email")) {
      errors := errors["email" := EmailInvalid];
    }
    if Get(f, "password") == "" {
      errors := errors["password" := PasswordRequired];
    }
    ok := errors.Keys == {};
    AcceptsIffNoMessage(f, errors);
  }

  /** The two per-field rules together are exactly what the form accepts. */
  lemma AcceptsIffNoMessage(f: Fields, errors: Fields)
    requires errors.Keys <= {"email", "password"}
    requires "email" in errors <==> !EmailLike(Get(f, "email"))
    requires "password" in errors <==> Get(f, "password") == ""
    ensures errors == map[] <==> Accepts(f)
  {
    if errors != map[] {
      var k :| k in errors.Keys;
    }
  }

  /** `location.state?.from || "/home"`. */
  function RedirectTarget(from: Option<string>): (target: string)
    ensures Truthy(from) ==> target == from.value
    ensures !Truthy(from) ==> target == DefaultTarget
  {
    OrElse(from, DefaultTarget)
  }

  /** A reader sent to log in from a blog's comment box comes back to that blog. */
  lemma ReturnsToBlogAfterLogin(routeId: string)
    ensures RedirectTarget(Some(CommentSection.BlogPath(routeId))) == CommentSection.BlogPath(routeId)
  {
    assert CommentSection.BlogPath(routeId)[0] == '/';
  }

  /** `handleSubmit`: a form that is not accepted shows its messages and
      sends nothing; an accepted one sends its fields as they are
      (`request`), then a successful login signs the user in and navigates to
      the redirect target, and a failed one shows the message. */
  method HandleSubmit(form: FormState, session: AuthContext.Session, from: Option<string>, answer: AuthContext.Answer)
    returns (request: Option<Fields>, navigatedTo: Option<string>)
    modifies form, session
    ensures form.values == old(form.values)
    ensures form.errors == map[] <==> Accepts(form.values)
    ensures !Accepts(form.values) ==>
              && request == None && navigatedTo == None && form.apiError == old(form.apiError)
              && session.token == old(session.token) && session.user == old(session.user)
              && session.storedToken == old(session.storedToken) && session.storedUser == old(session.storedUser)
    ensures Accepts(form.values) ==> request == Some(form.values)
    ensures Accepts(form.values) && answer.Answered? ==>
              && navigatedTo == Some(RedirectTarget(from)) && form.apiError == old(form.apiError)
              && session.token == AuthContext.TokenOf(answer.data)
              && session.user == Some(AuthContext.Stripped(answer.data))
              && session.storedToken == Some(AuthContext.StoredForm(session.token))
              && session.storedUser == session.user
    ensures Accepts(form.values) && answer.Failed? ==>
              && navigatedTo == None
              && form.apiError == OrElse(answer.serverMessage, AuthContext.LoginFailed)
              && session.token == old(session.token) && session.user == old(session.user)
              && session.storedToken == old(session.storedToken) && session.storedUser == old(session.storedUser)
    ensures session.loading == old(session.loading)
  {
    var errors, ok := Validate(form.values);
    form.SetErrors(errors);
    if !ok {
      return None, None;
    }
    request := Some(form.values);
    var result := session.Login(answer);
    if result.success {
      navigatedTo := Some(RedirectTarget(from));
    } else {
      form.SetApiError(result.message.value);
      navigatedTo := None;
    }
  }
}
