/** The request handlers of the user-profile application that change the
    store: the follow toggle, the combined user-and-profile edit, registration,
    the password change, and the first save of a profile. */
module ProfileViews {
  import opened Common
  import opened ProfileModels
  import opened BlogStore
  import opened ProfileForms
  import opened FieldRules

  /** `Profile.objects.get(slug=...)`. */
  function ProfileWithSlug(s: Store, slug: string): Lookup {
    FindBySlug(ProfileSlugs(s.profiles), slug)
  }

  /** `FollowingProfileCreateView.post`. Only a logged-in user reaches the
      toggle; for anyone else the view still redirects to a profile it never
      fetched and the request fails. The target is fetched with a bare `.get`
      and the actor's own profile through the one-to-one accessor, so a
      missing or repeated slug and a user without a profile fail too. */
  function FollowToggle(s: Store, actor: Actor, slug: string): (r: Result<Store>)
    requires OneProfilePerUser(s)
    ensures actor.Anonymous? ==> r == Err(ServerError)
    ensures r.Err? ==> r.error == ServerError
    ensures r.Ok? <==> actor.Authenticated? && ProfileWithSlug(s, slug).Unique? && ProfileOf(s, actor.user).Some?
    ensures r.Ok? ==>
      var t, target, me := r.value, ProfileWithSlug(s, slug).id, ProfileOf(s, actor.user).value;
      && target in s.profiles && t.profiles.Keys == s.profiles.Keys
      && (forall q :: q in s.profiles && q != target ==> t.profiles[q] == s.profiles[q])
      && (me in t.profiles[target].follows <==> me !in s.profiles[target].follows)
      && (forall q :: q != me ==> (q in t.profiles[target].follows <==> q in s.profiles[target].follows))
      && t.profiles[target].(follows := s.profiles[target].follows) == s.profiles[target]
      && t == s.(profiles := t.profiles)
  {
    if actor.Anonymous? then Err(ServerError)
    else match ProfileWithSlug(s, slug)
      case Unique(target) =>
        var me := ProfileOf(s, actor.user);
        if me.None? then Err(ServerError)
        else
          var p := s.profiles[target];
          Ok(s.(profiles := s.profiles[target := p.(follows := Toggle(p.follows, me.value))]))
      case _ => Err(ServerError)
  }

  // ----- the account fields shared by UserUpdateForm and UserRegisterForm -----

  /** A username passes its own field: required and at most 150 characters. */
  predicate UsernameAcceptable(name: string) {
    name != [] && |name| <= UsernameMax
  }

  /** The username the cleaned data holds when `clean_email` runs: absent
      when the username field itself failed. */
  function CleanedUsername(name: string): (r: Option<string>)
    ensures r.Some? <==> UsernameAcceptable(name)
    ensures r.Some? ==> r.value == name
  {
    if UsernameAcceptable(name) then Some(name) else None
  }

  /** A stored user other than `self` already has this username. */
  predicate UsernameHeldByOther(users: map<UserId, User>, name: string, self: Option<UserId>) {
    exists w :: w in users && users[w].username == name && Some(w) != self
  }

  /** The checks both user forms make on username and email: the field
      checks, `clean_email`, and the unique constraint on the username, which
      excludes the instance being edited (`self`) and nobody on registration.
      The first failing check is reported. */
  function AccountProblem(users: map<UserId, User>, self: Option<UserId>, username: string, email: string): (r: Option<FormError>)
    ensures r.None? <==>
      && UsernameAcceptable(username) && |email| <= EmailMax
      && CleanEmail(users, email, Some(username)).Ok?
      && !UsernameHeldByOther(users, username, self)
  {
    if CleanedUsername(username).None? then Some(FieldInvalid("username"))
    else if |email| > EmailMax then Some(FieldInvalid("email"))
    else if CleanEmail(users, email, CleanedUsername(username)).Err? then Some(EmailNotUnique)
    else if UsernameHeldByOther(users, username, self) then Some(UsernameTaken)
    else None
  }

  /** `UserUpdateForm.is_valid()` for the instance `self`. */
  function UserFormProblem(users: map<UserId, User>, self: UserId, f: UserForm): (r: Option<FormError>)
    ensures r.None? <==>
      && AccountProblem(users, Some(self), f.username, f.email).None?
      && |f.firstName| <= NameMax && |f.lastName| <= NameMax
  {
    var account := AccountProblem(users, Some(self), f.username, f.email);
    if account.Some? then account
    else if |f.firstName| > NameMax then Some(FieldInvalid("first_name"))
    else if |f.lastName| > NameMax then Some(FieldInvalid("last_name"))
    else None
  }

  /** Some profile other than `self` already has this slug. */
  predicate ProfileSlugHeldByOther(s: Store, slug: string, self: Option<ProfileId>) {
    exists q :: q in s.profiles && s.profiles[q].slug == slug && Some(q) != self
  }

  /** `ProfileEditView`. The object is always the requesting user's own
      profile; an anonymous user, or one without a profile, makes the
      accessor fail. Both forms must be valid, and then both rows are saved
      inside one transaction, so a unique-slug refusal on the profile row
      undoes the user row as well. `derived` is what the slug generator makes
      of the new username. */
  function ProfileEdit(s: Store, actor: Actor, uf: UserForm, pf: ProfileForm, derived: string): (r: Result<Store>)
    requires OneProfilePerUser(s) && ActorKnown(s, actor)
    ensures actor.Anonymous? ==> r == Err(ServerError)
    ensures actor.Authenticated? && ProfileOf(s, actor.user).None? ==> r == Err(ServerError)
    ensures actor.Authenticated? && ProfileOf(s, actor.user).Some? && UserFormProblem(s.users, actor.user, uf).Some? ==> r.Err?
    ensures actor.Authenticated? && ProfileOf(s, actor.user).Some? && ProfileFormProblem(pf).Some? ==> r.Err?
    ensures r.Ok? <==>
      && actor.Authenticated? && ProfileOf(s, actor.user).Some?
      && ProfileFormProblem(pf).None? && UserFormProblem(s.users, actor.user, uf).None?
      && !ProfileSlugHeldByOther(s, EditProfile(s.profiles[ProfileOf(s, actor.user).value], pf, derived).slug, ProfileOf(s, actor.user))
    ensures r.Ok? ==>
      var t, u, q := r.value, actor.user, ProfileOf(s, actor.user).value;
      && t.users == s.users[u := EditUser(s.users[u], uf)]
      && t.profiles == s.profiles[q := EditProfile(s.profiles[q], pf, derived)]
      && t == s.(users := t.users, profiles := t.profiles)
  {
    if actor.Anonymous? then Err(ServerError)
    else
      var me := ProfileOf(s, actor.user);
      if me.None? then Err(ServerError)
      else
        var profileProblem := ProfileFormProblem(pf);
        var userProblem := UserFormProblem(s.users, actor.user, uf);
        if profileProblem.Some? then Err(Invalid(profileProblem.value))
        else if userProblem.Some? then Err(Invalid(userProblem.value))
        else
          var p := EditProfile(s.profiles[me.value], pf, derived);
          if ProfileSlugHeldByOther(s, p.slug, me) then Err(IntegrityError)
          else
            var t := SaveUser(s, actor.user, EditUser(s.users[actor.user], uf));
            Ok(SaveProfile(t, me.value, p))
  }

  // ----- registration -----

  datatype RegisterForm = RegisterForm(username: string, email: string, password1: Password, password2: Password)

  /** `UserRegisterForm.is_valid()`: the account checks, then both passwords
      present and equal. */
  function RegisterProblem(users: map<UserId, User>, f: RegisterForm): (r: Option<FormError>)
    ensures r.None? ==> AccountProblem(users, None, f.username, f.email).None?
    ensures r.None? ==> f.password1 != [] && f.password1 == f.password2
    ensures AccountProblem(users, None, f.username, f.email).None? && f.password1 != [] && f.password1 == f.password2 ==> r.None?
  {
    var account := AccountProblem(users, None, f.username, f.email);
    if account.Some? then account
    else if f.password1 == [] then Some(FieldInvalid("password1"))
    else if f.password2 == [] then Some(FieldInvalid("password2"))
    else if f.password1 != f.password2 then Some(PasswordMismatch)
    else None
  }

  /** `RegisterCreateView`: a valid form stores a new user with the chosen
      username and password and the chosen email with its domain
      lower-cased (`AbstractUser.clean`), under the next user key. */
  function Register(s: Store, f: RegisterForm): (r: Result<Store>)
    ensures r.Ok? <==> RegisterProblem(s.users, f).None?
    ensures r.Err? ==> r.error.Invalid?
    ensures r.Ok? ==>
      var t := r.value;
      && t.users == s.users[s.nextUser := User(f.username, NormalizeEmail(f.email), [], [], f.password1)]
      && t == s.(users := t.users, nextUser := s.nextUser + 1)
  {
    var problem := RegisterProblem(s.users, f);
    if problem.Some? then Err(Invalid(problem.value))
    else Ok(InsertUser(s, User(f.username, NormalizeEmail(f.email), [], [], f.password1)))
  }

  // ----- password change -----

  datatype PasswordForm = PasswordForm(oldPassword: Password, newPassword1: Password, newPassword2: Password)

  /** A required password field: a blank one is absent from the cleaned data. */
  function Cleaned(p: Password): Option<Password> {
    if p == [] then None else Some(p)
  }

  /** `CustomPasswordChangeView`: the login check, then the framework's form
      (the old password must be given and check, both new ones must be given
      and agree),
      then `PasswordChangingForm.clean`. On success only that user's
      password changes. */
  function ChangePassword(s: Store, actor: Actor, f: PasswordForm): (r: Result<Store>)
    requires ActorKnown(s, actor)
    ensures actor.Anonymous? ==> r == Err(LoginRequired)
    ensures actor.Authenticated? && f.oldPassword == [] ==> r == Err(Invalid(FieldInvalid("old_password")))
    ensures actor.Authenticated? && f.oldPassword != [] && f.oldPassword != s.users[actor.user].password ==> r == Err(Invalid(WrongOldPassword))
    ensures actor.Authenticated? && f.newPassword1 == s.users[actor.user].password ==> r.Err?
    ensures r.Ok? <==>
      && actor.Authenticated? && f.oldPassword != [] && f.oldPassword == s.users[actor.user].password
      && f.newPassword1 != [] && f.newPassword1 == f.newPassword2
      && f.newPassword1 != s.users[actor.user].password
    ensures r.Ok? ==>
      var t, u := r.value, actor.user;
      && t == s.(users := s.users[u := s.users[u].(password := f.newPassword1)])
      && t.users[u].password != s.users[u].password
  {
    if actor.Anonymous? then Err(LoginRequired)
    else
      var current := s.users[actor.user].password;
      if f.oldPassword == [] then Err(Invalid(FieldInvalid("old_password")))
      else if f.oldPassword != current then Err(Invalid(WrongOldPassword))
      else if f.newPassword1 == [] then Err(Invalid(FieldInvalid("new_password1")))
      else if f.newPassword2 == [] then Err(Invalid(FieldInvalid("new_password2")))
      else if f.newPassword1 != f.newPassword2 then Err(Invalid(PasswordMismatch))
      else match CleanNewPassword(current, PasswordData(f.oldPassword, Cleaned(f.newPassword1), Cleaned(f.newPassword2)))
        case Err(e) => Err(e)
        case Ok(_) =>
          Ok(s.(users := s.users[actor.user := s.users[actor.user].(password := f.newPassword1)]))
  }

  // ----- the first save of a profile -----

  /** `Profile.save` on a new row for user `u`: the slug comes from the
      username, and the database refuses a missing user, a second profile
      for the same user, and a slug another profile holds. */
  function ProfileCreate(s: Store, u: UserId, derived: string): (r: Result<Store>)
    ensures r.Err? ==> r.error == IntegrityError
    ensures r.Ok? <==> u in s.users && OwnedBy(s.profiles, u) == {} && !ProfileSlugHeldByOther(s, derived, None)
    ensures r.Ok? ==>
      var t := r.value;
      && t.profiles == s.profiles[s.nextProfile := NewProfile(u, derived)]
      && t == s.(profiles := t.profiles, nextProfile := s.nextProfile + 1)
  {
    var p := NewProfile(u, derived);
    if u !in s.users || OwnedBy(s.profiles, u) != {} || ProfileSlugHeldByOther(s, p.slug, None) then Err(IntegrityError)
    else Ok(InsertProfile(s, p))
  }
}
