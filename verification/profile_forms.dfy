/** The validators the user-profile forms add on top of the framework's:
    the email uniqueness rule shared by the update and registration forms,
    and the rule that a new password must differ from the current one. */
module ProfileForms {
  import opened Common
  import opened ProfileModels
  import opened FieldRules

  /** Some stored user other than one named `username` holds `email`. When
      the username field itself failed, `username` is `None` and no holder is
      excused, as `exclude(username=None)` excludes nobody. */
  predicate EmailHeldByOther(users: map<UserId, User>, email: string, username: Option<string>) {
    exists u :: u in users && users[u].email == email && Some(users[u].username) != username
  }

  /** `clean_email` of `UserUpdateForm` and of `UserRegisterForm` (the two
      bodies are the same): a blank address always passes; a non-empty one
      is refused when a user with another username already holds it. */
  function CleanEmail(users: map<UserId, User>, email: string, username: Option<string>): (r: Result<string>)
    ensures r.Ok? ==> r.value == email
    ensures r.Err? ==> r.error == Invalid(EmailNotUnique)
    ensures email == [] ==> r.Ok?
    ensures r.Err? <==> email != [] && EmailHeldByOther(users, email, username)
  {
    if email != [] && EmailHeldByOther(users, email, username) then Err(Invalid(EmailNotUnique))
    else Ok(email)
  }

  /** An address held only by users with the submitted username passes. */
  lemma CleanEmailAcceptsOwnAddress(users: map<UserId, User>, email: string, username: string)
    requires forall u :: u in users && users[u].email == email ==> users[u].username == username
    ensures CleanEmail(users, email, Some(username)) == Ok(email)
  {
  }

  /** An address held by a user with another username is refused. */
  lemma CleanEmailRejectsTakenAddress(users: map<UserId, User>, email: string, username: Option<string>, holder: UserId)
    requires email != [] && holder in users && users[holder].email == email
    requires Some(users[holder].username) != username
    ensures CleanEmail(users, email, username) == Err(Invalid(EmailNotUnique))
  {
  }

  /** The email rule as its docstring means it, uniqueness of the address a
      user row ends up holding: the lookup uses the address as it will be
      saved, after `NormalizeEmail`, rather than as submitted. Neither form
      does this; `CleanEmail` is what they do. */
  function CleanEmailNormalized(users: map<UserId, User>, email: string, username: Option<string>): (r: Result<string>)
    ensures r.Ok? ==> r.value == email
    ensures r.Err? ==> r.error == Invalid(EmailNotUnique)
    ensures r.Err? <==> email != [] && EmailHeldByOther(users, NormalizeEmail(email), username)
  {
    var stored := NormalizeEmail(email);
    if stored != [] && EmailHeldByOther(users, stored, username) then Err(Invalid(EmailNotUnique))
    else Ok(email)
  }

  /** Over stored addresses that are all normalised, as every saved user
      row's is, the corrected rule refuses whatever the raw rule refuses. */
  lemma NormalizedCheckRefusesMore(users: map<UserId, User>, email: string, username: Option<string>)
    requires forall u :: u in users ==> NormalizeEmail(users[u].email) == users[u].email
    requires CleanEmail(users, email, username).Err?
    ensures CleanEmailNormalized(users, email, username).Err?
  {
    var w :| w in users && users[w].email == email && Some(users[w].username) != username;
    assert NormalizeEmail(email) == users[w].email;
  }

  /** The cleaned data `PasswordChangingForm.clean` receives; a new password
      is absent when its own field already failed. */
  datatype PasswordData = PasswordData(oldPassword: Password, newPassword1: Option<Password>, newPassword2: Option<Password>)

  /** `PasswordChangingForm.clean`: refused when the first new password
      checks against the current one, otherwise the data passes through. An
      absent new password never checks. */
  function CleanNewPassword(current: Password, data: PasswordData): (r: Result<PasswordData>)
    ensures r.Err? <==> data.newPassword1 == Some(current)
    ensures r.Err? ==> r.error == Invalid(PasswordUnchanged)
    ensures r.Ok? ==> r.value == data
  {
    if data.newPassword1.Some? && data.newPassword1.value == current then Err(Invalid(PasswordUnchanged))
    else Ok(data)
  }
}
