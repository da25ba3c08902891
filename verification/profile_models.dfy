/** Identity records: the framework's `User` (only the fields the forms
    touch) and the application's `Profile`, with the edit forms over them. */
module ProfileModels {
  import opened Common
  import opened FieldRules

  const ProfileBioMax: nat := 500
  /** `max_length` of the framework's user fields edited by `UserUpdateForm`. */
  const UsernameMax: nat := 150
  const NameMax: nat := 150
  const EmailMax: nat := 254

  /** Fallback picture for a profile without an image. */
  const DefaultAvatar: string := "/static/img/default-avatar.png"

  /** A calendar date; only equality matters to the model. */
  type Date = int

  datatype User = User(username: string, email: string, firstName: string, lastName: string, password: Password)

  /** `follows` is a directed edge set: holding B does not mean B holds this profile. */
  datatype Profile = Profile(
    user: UserId,
    follows: set<ProfileId>,
    slug: string,
    bio: string,
    dateBirthday: Option<Date>,
    profileImage: Option<ImageFile>)

  /** A profile as its first save stores it; its slug comes from the
      username through the slug generator, since a new profile has none. */
  function NewProfile(user: UserId, derived: string): (p: Profile)
    ensures p.user == user && p.follows == {} && p.slug == derived
    ensures p.bio == [] && p.dateBirthday.None? && p.profileImage.None?
  {
    Profile(user, {}, SlugOnSave([], derived), [], None, None)
  }

  /** `Profile.get_profile_image`: the default avatar stands in for a missing image. */
  function ProfileImageUrl(p: Profile): (r: string)
    ensures p.profileImage.None? ==> r == DefaultAvatar
    ensures p.profileImage.Some? ==> r == p.profileImage.value.url
    ensures r == DefaultAvatar <==> (p.profileImage.None? || p.profileImage.value.url == DefaultAvatar)
  {
    if p.profileImage.None? then DefaultAvatar else p.profileImage.value.url
  }

  // ----- ProfileUpdateForm -----

  datatype ProfileForm = ProfileForm(bio: string, profileImage: Option<ImageFile>, dateBirthday: Option<Date>)

  datatype ProfileField =
    | UserRefField | FollowsField | ProfileSlugField | BioField | ProfileImageField | DateBirthdayField

  /** The fields listed in `ProfileUpdateForm.Meta.fields`. */
  const ProfileFormFields: set<ProfileField> := {BioField, ProfileImageField, DateBirthdayField}

  function ProfileFieldsChanged(p: Profile, q: Profile): set<ProfileField> {
    (if p.user != q.user then {UserRefField} else {})
    + (if p.follows != q.follows then {FollowsField} else {})
    + (if p.slug != q.slug then {ProfileSlugField} else {})
    + (if p.bio != q.bio then {BioField} else {})
    + (if p.profileImage != q.profileImage then {ProfileImageField} else {})
    + (if p.dateBirthday != q.dateBirthday then {DateBirthdayField} else {})
  }

  function ProfileFormProblem(f: ProfileForm): (r: Option<FormError>)
    ensures r.None? <==> |f.bio| <= ProfileBioMax && ValidImage(f.profileImage)
    ensures r.Some? ==> r.value.FieldInvalid?
  {
    if |f.bio| > ProfileBioMax then Some(FieldInvalid("bio"))
    else if !ValidImage(f.profileImage) then Some(FieldInvalid("profile_image"))
    else None
  }

  /** A profile after `ProfileUpdateForm` and `save`: the form's fields take
      the submitted values, and the slug changes only if it was empty. */
  function EditProfile(p: Profile, f: ProfileForm, derived: string): (q: Profile)
    ensures ProfileFieldsChanged(p, q) <= ProfileFormFields + {ProfileSlugField}
    ensures p.slug != [] ==> ProfileFieldsChanged(p, q) <= ProfileFormFields
    ensures q.user == p.user && q.follows == p.follows
    ensures q.bio == f.bio && q.profileImage == f.profileImage && q.dateBirthday == f.dateBirthday
  {
    p.(bio := f.bio, profileImage := f.profileImage, dateBirthday := f.dateBirthday,
       slug := SlugOnSave(p.slug, derived))
  }

  // ----- UserUpdateForm -----

  datatype UserForm = UserForm(username: string, email: string, firstName: string, lastName: string)

  datatype UserField = UsernameField | EmailField | FirstNameField | LastNameField | PasswordField

  /** The fields listed in `UserUpdateForm.Meta.fields`. */
  const UserFormFields: set<UserField> := {UsernameField, EmailField, FirstNameField, LastNameField}

  function UserFieldsChanged(u: User, v: User): set<UserField> {
    (if u.username != v.username then {UsernameField} else {})
    + (if u.email != v.email then {EmailField} else {})
    + (if u.firstName != v.firstName then {FirstNameField} else {})
    + (if u.lastName != v.lastName then {LastNameField} else {})
    + (if u.password != v.password then {PasswordField} else {})
  }

  /** A user after `UserUpdateForm` saves it; the password is never touched.
      The model form runs `AbstractUser.clean` first, so the stored address
      is the submitted one with its domain lower-cased. */
  function EditUser(u: User, f: UserForm): (v: User)
    ensures UserFieldsChanged(u, v) <= UserFormFields
    ensures v.password == u.password
    ensures v.username == f.username && v.email == NormalizeEmail(f.email)
    ensures v.firstName == f.firstName && v.lastName == f.lastName
  {
    u.(username := f.username, email := NormalizeEmail(f.email), firstName := f.firstName, lastName := f.lastName)
  }
}
