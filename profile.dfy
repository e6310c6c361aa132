/** The profile page: the edit form seeded from the signed-in user, its
    validation, the update it sends, and cancel. */
module Profile {
  import opened Common
  import opened Strings
  import opened Forms
  import AuthContext

  /** The answer of the profile update: the updated user, or a failure with
      the server's message, if any. */
  datatype ProfileReply = Updated(data: AuthContext.UserRecord) | Rejected(message: Option<string>)

  const NameTooShort := "Name must be at least 2 characters"
  const PasswordTooShort := "Password must be at least 6 characters"
  const PasswordsDiffer := "Passwords do not match"
  const ProfileUpdated := "Profile updated successfully!"
  const UpdateFailed := "Failed to update profile"
  const MinName := 2
  const MinPassword := 6

  /** `user?.[key] || ""`. */
  function Field(user: Option<AuthContext.UserRecord>, key: string): (v: string)
    ensures user.Some? && key in user.value ==> v == user.value[key]
    ensures user.None? || key !in user.value ==> v == ""
  {
    if user.Some? && key in user.value then user.value[key] else ""
  }

  /** The form as seeded from the user: name, bio and avatar, blank passwords. */
  function Seeded(user: Option<AuthContext.UserRecord>): (f: Fields)
    ensures f.Keys == {"name", "bio", "avatar", "password", "confirmPassword"}
    ensures Get(f, "password") == "" && Get(f, "confirmPassword") == ""
    ensures forall k :: k in {"name", "bio", "avatar"} ==> Get(f, k) == Field(user, k)
  {
    map["name" := Field(user, "name"), "bio" := Field(user, "bio"), "avatar" := Field(user, "avatar"),
        "password" := "", "confirmPassword" := ""]
  }

  /** What the form accepts: a trimmed name of at least 2 characters, no
      password or one of at least 6, and a confirmation equal to it. */
  predicate Accepts(f: Fields)
  {
    && |Trim(Get(f, "name"))| >= MinName
    && (Get(f, "password") == "" || |Get(f, "password")| >= MinPassword)
    && Get(f, "password") == Get(f, "confirmPassword")
  }

  /** `validate`: a trimmed name of at least 2 characters; a password, when
      one is typed, of at least 6; and a matching confirmation. An empty
      password keeps the current one and is accepted. */
  method Validate(f: Fields) returns (errors: Fields, ok: bool)
    ensures ok <==> errors == map[]
    ensures ok <==> Accepts(f)
    ensures errors.Keys <= {"name", "password", "confirmPassword"}
    ensures "name" in errors <==> |Trim(Get(f, "name"))| < MinName
    ensures "name" in errors ==> errors["name"] == NameTooShort
    ensures "password" in errors <==> 0 < |Get(f, "password")| < MinPassword
    ensures "password" in errors ==> errors["password"] == PasswordTooShort
    ensures "confirmPassword" in errors <==> Get(f, "password") != Get(f, "confirmPassword")
    ensures "confirmPassword" in errors ==> errors["confirmPassword"] == PasswordsDiffer
  {
    errors := map[];
    if Get(f, "name") == "" || |Trim(Get(f, "name"))| < MinName {
      errors := errors["name" := NameTooShort];
    }
    if Get(f, "password") != "" && |Get(f, "password")| < MinPassword {
      errors := errors["password" := PasswordTooShort];
    }
    if Get(f, "password") != Get(f, "confirmPassword") {
      errors := errors["confirmPassword" := PasswordsDiffer];
    }
    ok := errors.Keys == {};
    AcceptsIffNoMessage(f, errors);
  }

  /** The three per-field rules together are exactly what the form accepts. */
  lemma AcceptsIffNoMessage(f: Fields, errors: Fields)
    requires errors.Keys <= {"name", "password", "confirmPassword"}
    requires "name" in errors <==> |Trim(Get(f, "name"))| < MinName
    requires "password" in errors <==> 0 < |Get(f, "password")| < MinPassword
    requires "confirmPassword" in errors <==> Get(f, "password") != Get(f, "confirmPassword")
    ensures errors == map[] <==> Accepts(f)
  {
    if errors != map[] {
      var k :| k in errors.Keys;
    }
  }

  /** The update body: name, bio and avatar always, the password only when typed. */
  function Payload(f: Fields): (p: Fields)
    ensures p.Keys == {"name", "bio", "avatar"} + (if Get(f, "password") != "" then {"password"} else {})
    ensures forall k :: k in p ==> p[k] == Get(f, k)
  {
    var base := map["name" := Get(f, "name"), "bio" := Get(f, "bio"), "avatar" := Get(f, "avatar")];
    if Get(f, "password") != "" then base["password" := Get(f, "password")] else base
  }

  /** After a saved update, cancelling re-seeds the form from the merged
      user, so every field the server returned shows its new value. */
  lemma CancelAfterSaveShowsSaved(user: Option<AuthContext.UserRecord>, data: AuthContext.UserRecord, key: string)
    requires key in {"name", "bio", "avatar"} && key in data
    ensures Get(Seeded(Some(AuthContext.Merge(user, data))), key) == data[key]
  {
  }

  class Page {
    const form: FormState
    const session: AuthContext.Session
    var isEditing: bool
    var success: string
    var sent: seq<Fields>

    constructor (session: AuthContext.Session)
      ensures this.session == session && fresh(form)
      ensures form.values == Seeded(session.user) && form.errors == map[] && form.apiError == ""
      ensures !isEditing && success == "" && sent == []
    {
      this.session := session;
      form := new FormState(Seeded(session.user));
      isEditing := false;
      success := "";
      sent := [];
    }

    /** `handleChange`: as every form, and the success banner is cleared too. */
    method HandleChange(name: string, value: string)
      modifies this, form
      ensures form.values == old(form.values)[name := value] && form.apiError == ""
      ensures Get(form.errors, name) == "" && forall k :: k != name ==> Get(form.errors, k) == Get(old(form.errors), k)
      ensures success == "" && isEditing == old(isEditing) && sent == old(sent)
    {
      form.HandleChange(name, value);
      success := "";
    }

    /** `handleSubmit`: a form that is not accepted shows its messages and
        sends nothing; a saved update merges
        the answer into the session, shows the banner, leaves edit mode and
        blanks both password fields; a failure shows the server's message. */
    method HandleSubmit(reply: ProfileReply)
      modifies this, form, session
      ensures form.errors == map[] <==> Accepts(old(form.values))
      ensures !Accepts(old(form.values)) ==>
                && sent == old(sent) && form.values == old(form.values)
                && session.user == old(session.user) && success == old(success)
                && form.apiError == old(form.apiError) && isEditing == old(isEditing)
                && session.token == old(session.token) && session.storedUser == old(session.storedUser)
      ensures Accepts(old(form.values)) ==> sent == old(sent) + [Payload(old(form.values))]
      ensures Accepts(old(form.values)) && reply.Updated? ==>
                && session.user == Some(AuthContext.Merge(old(session.user), reply.data))
                && session.token == old(session.token) && session.storedUser == session.user
                && success == ProfileUpdated && !isEditing && form.apiError == old(form.apiError)
                && form.values == old(form.values)["password" := ""]["confirmPassword" := ""]
      ensures Accepts(old(form.values)) && reply.Rejected? ==>
                && session.user == old(session.user) && form.values == old(form.values)
                && form.apiError == OrElse(reply.message, UpdateFailed)
                && success == old(success) && isEditing == old(isEditing)
                && session.token == old(session.token) && session.storedUser == old(session.storedUser)
      ensures session.storedToken == old(session.storedToken) && session.loading == old(session.loading)
    {
      var errors, ok := Validate(form.values);
      form.SetErrors(errors);
      if !ok {
        return;
      }
      sent := sent + [Payload(form.values)];
      match reply
      case Updated(data) =>
        session.UpdateUser(data);
        success := ProfileUpdated;
        isEditing := false;
        form.SetValues(form.values["password" := ""]["confirmPassword" := ""]);
      case Rejected(message) =>
        form.SetApiError(OrElse(message, UpdateFailed));
    }

    /** `handleCancel`: the form is re-seeded from the session's user and
        every message is cleared. */
    method HandleCancel()
      modifies this, form
      ensures form.values == Seeded(session.user) && form.errors == map[] && form.apiError == ""
      ensures success == "" && !isEditing && sent == old(sent)
    {
      form.SetValues(Seeded(session.user));
      form.SetErrors(map[]);
      form.SetApiError("");
      success := "";
      isEditing := false;
    }
  }
}
