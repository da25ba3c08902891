/** What the user-profile handlers keep: the database's integrity, the
    post counter (which none of them touches), and the application-level rule
    the email validators exist for, that no two users share an address. */
module ProfileViewProofs {
  import opened Common
  import opened ProfileModels
  import opened BlogStore
  import opened ProfileForms
  import opened ProfileViews
  import opened FieldRules

  /** No two stored users hold the same non-empty email address. The
      database does not enforce this; the two user forms do. */
  predicate EmailsUnique(s: Store) {
    forall u1, u2 :: u1 in s.users && u2 in s.users && s.users[u1].email != [] && s.users[u1].email == s.users[u2].email ==> u1 == u2
  }

  // ----- follow toggle -----

  /** The profile owned by `u` is still found after a change that keeps
      every profile key and owner. */
  lemma ProfileOfKept(s: Store, t: Store, u: UserId)
    requires OneProfilePerUser(s)
    requires t.profiles.Keys == s.profiles.Keys
    requires forall q :: q in s.profiles ==> t.profiles[q].user == s.profiles[q].user
    ensures OneProfilePerUser(t)
    ensures ProfileOf(t, u) == ProfileOf(s, u)
  {
    assert OneProfilePerUser(t);
    if ProfileOf(s, u).Some? {
      assert ProfileOf(t, u).Some?;
    }
  }

  /** Following and unfollowing: the same request twice restores the store. */
  lemma FollowToggleTwice(s: Store, actor: Actor, slug: string)
    requires OneProfilePerUser(s)
    requires FollowToggle(s, actor, slug).Ok?
    ensures var t := FollowToggle(s, actor, slug).value;
      OneProfilePerUser(t) && FollowToggle(t, actor, slug) == Ok(s)
  {
    var target, me := ProfileWithSlug(s, slug).id, ProfileOf(s, actor.user).value;
    var p := s.profiles[target];
    var t := s.(profiles := s.profiles[target := p.(follows := Toggle(p.follows, me))]);
    assert FollowToggle(s, actor, slug) == Ok(t);
    ProfileOfKept(s, t, actor.user);
    assert ProfileSlugs(t.profiles) == ProfileSlugs(s.profiles);
    ToggleTwice(p.follows, me);
    assert t.profiles[target := p] == s.profiles;
  }

  /** A follow request changes only the target profile's `follows`; the
      requester's own `follows` is unchanged. */
  lemma FollowIsOneWay(s: Store, actor: Actor, slug: string)
    requires OneProfilePerUser(s)
    requires FollowToggle(s, actor, slug).Ok?
    requires ProfileWithSlug(s, slug).id != ProfileOf(s, actor.user).value
    ensures var t, me := FollowToggle(s, actor, slug).value, ProfileOf(s, actor.user).value;
      t.profiles[me].follows == s.profiles[me].follows
  {
  }

  /** A change that rewrites follow sets only, within the stored profiles,
      keeps the store valid. */
  lemma FollowsOnlyChange(s: Store, t: Store)
    requires Valid(s)
    requires t == s.(profiles := t.profiles) && t.profiles.Keys == s.profiles.Keys
    requires forall q :: q in s.profiles ==>
      t.profiles[q] == s.profiles[q].(follows := t.profiles[q].follows) && t.profiles[q].follows <= s.profiles.Keys
    ensures Valid(t)
  {
    assert forall q :: q in t.profiles ==> t.profiles[q].user == s.profiles[q].user && t.profiles[q].slug == s.profiles[q].slug;
  }

  lemma FollowTogglePreservesValid(s: Store, actor: Actor, slug: string)
    requires Valid(s)
    requires FollowToggle(s, actor, slug).Ok?
    ensures Valid(FollowToggle(s, actor, slug).value)
  {
    var t := FollowToggle(s, actor, slug).value;
    var target, me := ProfileWithSlug(s, slug).id, ProfileOf(s, actor.user).value;
    assert t.profiles[target].follows <= s.profiles[target].follows + {me};
    FollowsOnlyChange(s, t);
  }

  // ----- profile edit -----

  /** What a successful edit guarantees about the new values: the username
      and, when non-empty, the email as submitted are held by no other user,
      and the new slug by no other profile. The address as stored, after
      `NormalizeEmail`, may still be held by another user. */
  lemma ProfileEditShape(s: Store, actor: Actor, uf: UserForm, pf: ProfileForm, derived: string)
    requires OneProfilePerUser(s) && ActorKnown(s, actor)
    requires ProfileEdit(s, actor, uf, pf, derived).Ok?
    ensures forall w :: w in s.users && w != actor.user ==> s.users[w].username != uf.username
    ensures forall w :: w in s.users && w != actor.user ==> uf.email == [] || s.users[w].email != uf.email
    ensures var t, me := ProfileEdit(s, actor, uf, pf, derived).value, ProfileOf(s, actor.user).value;
      forall q :: q in s.profiles && q != me ==> s.profiles[q].slug != t.profiles[me].slug
  {
    assert UserFormProblem(s.users, actor.user, uf).None?;
    assert AccountProblem(s.users, Some(actor.user), uf.username, uf.email).None?;
  }

  /** Rewriting one user row keeps usernames unique when the new username
      is free of every other user. */
  lemma UserRowChange(s: Store, t: Store, u: UserId)
    requires UsernamesUnique(s) && u in s.users
    requires t.users.Keys == s.users.Keys
    requires forall w :: w in s.users && w != u ==> t.users[w] == s.users[w] && s.users[w].username != t.users[u].username
    ensures UsernamesUnique(t)
  {
  }

  /** Rewriting one profile row keeps the profile rules when the new slug is
      free of every other profile and owner and follow set are kept. */
  lemma ProfileRowChange(s: Store, t: Store, me: ProfileId)
    requires ProfileRefs(s) && OneProfilePerUser(s) && ProfileSlugsUnique(s) && me in s.profiles
    requires t.users == s.users && t.profiles.Keys == s.profiles.Keys
    requires forall q :: q in s.profiles && q != me ==> t.profiles[q] == s.profiles[q] && s.profiles[q].slug != t.profiles[me].slug
    requires t.profiles[me].user == s.profiles[me].user && t.profiles[me].follows == s.profiles[me].follows
    ensures ProfileRefs(t) && OneProfilePerUser(t) && ProfileSlugsUnique(t)
  {
    assert forall q :: q in t.profiles ==> t.profiles[q].user == s.profiles[q].user && t.profiles[q].follows == s.profiles[q].follows;
  }

  /** Rewriting one user row and that user's profile row keeps the store
      valid when the new username and slug are free of every other row and
      the profile keeps its owner and follow set. */
  lemma OwnRowsChange(s: Store, t: Store, u: UserId, me: ProfileId)
    requires Valid(s) && u in s.users && me in s.profiles
    requires t == s.(users := t.users, profiles := t.profiles)
    requires t.users.Keys == s.users.Keys && t.profiles.Keys == s.profiles.Keys
    requires forall w :: w in s.users && w != u ==> t.users[w] == s.users[w] && s.users[w].username != t.users[u].username
    requires forall q :: q in s.profiles && q != me ==> t.profiles[q] == s.profiles[q] && s.profiles[q].slug != t.profiles[me].slug
    requires t.profiles[me].user == s.profiles[me].user && t.profiles[me].follows == s.profiles[me].follows
    ensures Valid(t)
  {
    UserRowChange(s, t, u);
    ProfileRowChange(s, s.(profiles := t.profiles), me);
    assert ProfileRefs(t);
  }

  lemma ProfileEditPreservesValid(s: Store, actor: Actor, uf: UserForm, pf: ProfileForm, derived: string)
    requires Valid(s) && ActorKnown(s, actor)
    requires ProfileEdit(s, actor, uf, pf, derived).Ok?
    ensures Valid(ProfileEdit(s, actor, uf, pf, derived).value)
  {
    var t := ProfileEdit(s, actor, uf, pf, derived).value;
    ProfileEditShape(s, actor, uf, pf, derived);
    OwnRowsChange(s, t, actor.user, ProfileOf(s, actor.user).value);
  }

  /** The email rule looks up the address as submitted, but the row stores
      it with its domain lower-cased: an edit to an address whose stored form
      another user already holds goes through and leaves two users sharing
      that address. */
  lemma ProfileEditCanDuplicateEmail(s: Store, actor: Actor, uf: UserForm, pf: ProfileForm, derived: string, holder: UserId)
    requires OneProfilePerUser(s) && ActorKnown(s, actor)
    requires ProfileEdit(s, actor, uf, pf, derived).Ok?
    requires holder in s.users && holder != actor.user
    requires uf.email != [] && s.users[holder].email == NormalizeEmail(uf.email)
    ensures !EmailsUnique(ProfileEdit(s, actor, uf, pf, derived).value)
  {
    var t := ProfileEdit(s, actor, uf, pf, derived).value;
    assert t.users[holder].email == t.users[actor.user].email;
  }

  /** Under the corrected rule, which looks up the address as it will be
      stored, the edit form cannot hand a user an address another user holds. */
  lemma ProfileEditWithNormalizedCheckKeepsEmailsUnique(s: Store, actor: Actor, uf: UserForm, pf: ProfileForm, derived: string)
    requires OneProfilePerUser(s) && ActorKnown(s, actor) && EmailsUnique(s)
    requires ProfileEdit(s, actor, uf, pf, derived).Ok?
    requires CleanEmailNormalized(s.users, uf.email, Some(uf.username)).Ok?
    ensures EmailsUnique(ProfileEdit(s, actor, uf, pf, derived).value)
  {
    ProfileEditShape(s, actor, uf, pf, derived);
  }

  /** The email rule excuses holders of the submitted username, not the
      user being edited: renaming oneself while keeping one's own non-empty
      address is refused, because one's own stored row holds it. */
  lemma RenameKeepingEmailIsRefused(s: Store, actor: Actor, uf: UserForm, pf: ProfileForm, derived: string)
    requires OneProfilePerUser(s) && ActorKnown(s, actor) && actor.Authenticated?
    requires uf.email != [] && uf.email == s.users[actor.user].email
    requires uf.username != s.users[actor.user].username
    ensures ProfileEdit(s, actor, uf, pf, derived).Err?
  {
    if UsernameAcceptable(uf.username) {
      assert EmailHeldByOther(s.users, uf.email, Some(uf.username));
    }
  }

  // ----- registration -----

  /** What a successful registration guarantees: the username is held by no
      stored user, and a non-empty email by none either. */
  lemma RegisterShape(s: Store, f: RegisterForm)
    requires Register(s, f).Ok?
    ensures forall w :: w in s.users ==> s.users[w].username != f.username
    ensures forall w :: w in s.users ==> f.email == [] || s.users[w].email != f.email
  {
    assert AccountProblem(s.users, None, f.username, f.email).None?;
  }

  /** Registration applies the email rule of the edit form, and since the
      new username is free, no holder of the address is excused: an address
      any user already holds is refused. */
  lemma RegisterRefusesHeldEmail(s: Store, f: RegisterForm, holder: UserId)
    requires f.email != [] && holder in s.users && s.users[holder].email == f.email
    ensures Register(s, f).Err?
  {
    if s.users[holder].username == f.username {
      assert UsernameHeldByOther(s.users, f.username, None);
    } else {
      assert EmailHeldByOther(s.users, f.email, Some(f.username));
    }
  }

  lemma RegisterPreservesValid(s: Store, f: RegisterForm)
    requires Valid(s)
    requires Register(s, f).Ok?
    ensures Valid(Register(s, f).value)
  {
    RegisterShape(s, f);
  }

  /** A store holding only alice, with address `a@example.com`. */
  const AliceOnly: Store :=
    EmptyStore.(users := map[0 := User("alice", "a@example.com", "", "", "secret")], nextUser := 1)

  /** bob registering with alice's address, its domain in capitals. */
  const BobWithAlicesAddress: RegisterForm := RegisterForm("bob", "a@EXAMPLE.com", "pw", "pw")

  /** The address bob submits is stored as alice's. */
  lemma StoredExampleAddress()
    ensures NormalizeEmail("a@EXAMPLE.com") == "a@example.com"
  {
    var e := "a@EXAMPLE.com";
    assert e[1] == '@' && forall j :: 1 < j < |e| ==> e[j] != '@';
    assert LastAt(e) == Some(1);
    var r := NormalizeEmail(e);
    assert forall i :: 1 < i < |e| ==> r[i] == LowerChar(e[i]);
  }

  /** The email rule looks up the address as submitted, which no user
      holds, and the new row stores it normalised, which alice holds: after
      the registration two users share `a@example.com`. */
  lemma RegisterDuplicatesEmailExample()
    ensures EmailsUnique(AliceOnly)
    ensures Register(AliceOnly, BobWithAlicesAddress).Ok?
    ensures !EmailsUnique(Register(AliceOnly, BobWithAlicesAddress).value)
  {
    var submitted := BobWithAlicesAddress.email;
    StoredExampleAddress();
    assert !EmailHeldByOther(AliceOnly.users, submitted, Some("bob"));
    var t := Register(AliceOnly, BobWithAlicesAddress).value;
    assert t.users[0].email == t.users[1].email;
  }

  /** Under the corrected rule, which looks up the address as it will be
      stored, registration cannot hand a new user an address already held. */
  lemma RegisterWithNormalizedCheckKeepsEmailsUnique(s: Store, f: RegisterForm)
    requires IdsIssued(s) && EmailsUnique(s)
    requires Register(s, f).Ok?
    requires CleanEmailNormalized(s.users, f.email, Some(f.username)).Ok?
    ensures EmailsUnique(Register(s, f).value)
  {
    RegisterShape(s, f);
  }

  // ----- password change -----

  /** A successful change cannot be replayed: the old password no longer
      checks. */
  lemma ChangePasswordNotRepeatable(s: Store, actor: Actor, f: PasswordForm)
    requires ActorKnown(s, actor)
    requires ChangePassword(s, actor, f).Ok?
    ensures ActorKnown(ChangePassword(s, actor, f).value, actor)
    ensures ChangePassword(ChangePassword(s, actor, f).value, actor, f) == Err(Invalid(WrongOldPassword))
  {
  }

  lemma ChangePasswordPreservesValid(s: Store, actor: Actor, f: PasswordForm)
    requires Valid(s) && EmailsUnique(s) && ActorKnown(s, actor)
    requires ChangePassword(s, actor, f).Ok?
    ensures Valid(ChangePassword(s, actor, f).value) && EmailsUnique(ChangePassword(s, actor, f).value)
  {
    var t := ChangePassword(s, actor, f).value;
    assert forall w :: w in t.users ==> t.users[w].username == s.users[w].username && t.users[w].email == s.users[w].email;
  }

  // ----- profile creation -----

  lemma ProfileCreatePreservesValid(s: Store, u: UserId, derived: string)
    requires Valid(s)
    requires ProfileCreate(s, u, derived).Ok?
    ensures Valid(ProfileCreate(s, u, derived).value)
  {
    assert s.nextProfile !in s.profiles;
    forall q | q in s.profiles
      ensures s.profiles[q].user != u && s.profiles[q].slug != derived
    {
      assert q !in OwnedBy(s.profiles, u);
    }
  }

  /** A second profile for the same user is refused. */
  lemma ProfileCreateOncePerUser(s: Store, u: UserId, derived: string, later: string)
    requires ProfileCreate(s, u, derived).Ok?
    ensures ProfileCreate(ProfileCreate(s, u, derived).value, u, later) == Err(IntegrityError)
  {
    var t := ProfileCreate(s, u, derived).value;
    assert t.profiles[s.nextProfile].user == u;
    assert s.nextProfile in OwnedBy(t.profiles, u);
  }
}
