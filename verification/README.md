# Blog store: a verified model of the state rules

This project models the state rules of a Django blog with user profiles:

- **Tables.** Categories carry a denormalised `post_amount` counter. Posts have an author, a category and a set of users who like them. Comments belong to a post and an author. Users have a profile with a directed `follows` set.
- **Behaviour.** Signal handlers maintain the counter, and the models declare `on_delete` rules. The request handlers that change rows are gated by author checks. The forms decide which fields an edit may touch and validate emails and passwords.
- **Read projections.** Templates and list views use a few queries over the store.

The database is one immutable `Store` record (`BlogStore.Store`). It holds a map per table plus the next value of each table's primary-key sequence. Every request handler is a pure function from a store and the request's inputs to `Result<Store>`. `Err` carries the reason the request ended and never a store, because every failure in the source happens before any write or inside one transaction.

Errors follow the framework's behaviour:

- `get_object_or_404` gives `NotFound`.
- A bare `.get()` that finds no row or several rows gives `ServerError`. So does an unbound variable or a missing one-to-one row, since nothing handles those exceptions.
- A `PROTECT` refusal gives `Protected`.
- A unique-constraint refusal gives `IntegrityError`.

Two consistency predicates are kept apart:

- `BlogStore.Integrity` is what the database itself guarantees: foreign keys, one profile per user, unique profile slugs, unique usernames, and keys below their sequences. Every handler preserves it.
- `BlogStore.CounterConsistent` says that each category's `post_amount` equals the number of posts filed under it.

Creation, deletion (direct and by cascade) and updates that keep the category preserve the counter. An update that moves a post to another category does not. The post-save handler counts only on creation (blogproject/blog/signals.py:15), so the counters of both categories stay as they were. `StoreInvariants.SavePostMovedBreaksCounter` and `BlogViewProofs.PostUpdateMovedBreaksCounter` state this, and `BlogViewProofs.MovingAPostBreaksTheCounterExample` gives a concrete store where it happens. The update handler is modelled as written. No handler requires the counter to be consistent.

Behaviours of the code that its names and docstrings would not lead a reader to expect. The model keeps each one as written:

- **Post slugs can repeat.** `Post.slug` is not declared unique (blogproject/blog/models.py:45), so a lookup by post slug can find several posts. The like toggle's `get_object_or_404` and the comment handler's `.get` then fail with `ServerError`.
- **Anonymous follow fails.** The follow toggle checks the login only around the toggle itself. For an anonymous user it redirects to a profile it never fetched, and the request fails (`ServerError`, store unchanged).
- **Anonymous like fails.** The like toggle has no login check. An anonymous user cannot be added to a like set, so the request fails too.
- **Anonymous profile edit fails.** The profile edit view has no login check, and the profile accessor fails for an anonymous user.
- **The follow edge points at the requester.** The follow request adds the requester's profile to the target profile's `follows` (blogproject/user_profile/views.py:60-63). The field is named "subscriptions" with reverse name `followed_by` (blogproject/user_profile/models.py:18-20). Read by that declaration, the request makes the target follow the requester. The view's name suggests the opposite was meant, but nothing in the source settles it, so the model keeps the code's direction.
- **Renaming oneself while keeping one's email is refused.** `clean_email` excludes holders of the *submitted* username, not the user being edited (blogproject/user_profile/forms.py:40). After a rename, the user's own stored row still holds the address under the old name, so the edit fails (`ProfileViewProofs.RenameKeepingEmailIsRefused`).
- **Two users can end up with one email.** Both `clean_email` methods look up the address as submitted (blogproject/user_profile/forms.py:40, 55). Both forms are model forms on the framework's `User`, whose `clean` runs before the save and passes the address through `normalize_email`, which lower-cases the domain. So while alice holds `a@example.com`, bob can register with `a@EXAMPLE.com` or edit his address to it, and afterwards both rows hold `a@example.com` (`ProfileViewProofs.RegisterDuplicatesEmailExample`, `ProfileViewProofs.ProfileEditCanDuplicateEmail`). The lookup the docstrings promise, on the address as it will be stored (`ProfileForms.CleanEmailNormalized`), keeps addresses unique (`ProfileViewProofs.RegisterWithNormalizedCheckKeepsEmailsUnique`, `ProfileViewProofs.ProfileEditWithNormalizedCheckKeepsEmailsUnique`).
- **Deleting a user updates every affected counter.** The framework fires the post-delete signal for every post removed by a cascade. So deleting a user lowers each category's counter by the number of that user's posts it held, and the counter stays consistent.

The slug generator `unique_slugify` lives in a file that is not part of this model. Every operation that may call it takes a parameter `derived`, the value the generator would return. The model states only the rule around the generator: a slug is derived only when the stored one is empty.

## Model

| member | source | states |
|---|---|---|
| BlogStore.InsertPost | blogproject/blog/signals.py:15-17 | creating a post stores it under a fresh key and adds exactly one to its own category's `post_amount`; every other category and every other table is unchanged |
| BlogStore.SavePost | blogproject/blog/signals.py:15 | saving an existing post (`created` false) changes no category at all, whatever the post's new category |
| BlogStore.DeletePost | blogproject/blog/signals.py:28-29 | deleting a post removes it and, by cascade, exactly the comments on it; its category's `post_amount` drops by one and no other category changes |
| BlogStore.DeleteCategory | blogproject/blog/models.py:46 | deleting a category fails with `NotFound` when absent and with `Protected` when any post references it, and succeeds exactly when no post does, removing only that category |
| BlogStore.DeleteUser | blogproject/blog/models.py:42 | deleting a user removes every post they wrote, every comment they wrote or that hangs off their posts, their profile, and their like and follow rows; each category loses the count of that user's posts it held |
| BlogStore.FindBySlug | blogproject/blog/views.py:297 | a lookup by slug is `Missing` exactly when no row has the slug, `Unique` only for the one row that has it, `Ambiguous` only when two rows share it |
| BlogStore.ProfileOf | blogproject/user_profile/views.py:82 | the requesting user's profile is the one row whose `user` is them, and `None` exactly when no profile belongs to them |
| BlogStore.InsertCategory | blogproject/blog/models.py:26-32 | a new category is stored under a fresh key and no other row changes |
| BlogStore.CountCreated | blogproject/blog/signals.py:15-17 | the creation signal raises the given category's `post_amount` by one and leaves every other category as it was |
| BlogStore.CountDeleted | blogproject/blog/signals.py:28-29 | the deletion signal lowers the given category's `post_amount` by one and leaves every other category as it was |
| StoreInvariants.InsertPostKeepsCounter | blogproject/blog/signals.py:15-17 | from a consistent counter, creating a post in an existing category leaves the counter consistent |
| StoreInvariants.DeletePostKeepsCounter | blogproject/blog/signals.py:28-29 | from a consistent counter, deleting a post leaves the counter consistent |
| StoreInvariants.SavePostKeepsCounter | blogproject/blog/signals.py:15 | saving a post that stays in its category leaves the counter consistent |
| StoreInvariants.SavePostMovedBreaksCounter | blogproject/blog/signals.py:15 | saving a post under another category leaves the old category counting one post too many and the new one one too few, so the counter is no longer consistent |
| StoreInvariants.InsertCategoryKeepsCounter | blogproject/blog/models.py:18 | a new category with count 0 holds no posts, so the counter stays consistent |
| StoreInvariants.DeleteCategoryKeepsCounter | blogproject/blog/models.py:46 | removing an unreferenced category keeps every remaining counter consistent |
| StoreInvariants.DeleteCategoryPreservesValid | blogproject/blog/models.py:46 | removing an unreferenced category keeps integrity and the counter |
| StoreInvariants.DeleteUserKeepsCounter | blogproject/blog/models.py:42 | the cascade of a user deletion, with one deletion signal per removed post, keeps the counter consistent |
| StoreInvariants.DeleteUserKeepsPostRefs | blogproject/blog/models.py:42-48 | after a user deletion every remaining post has a stored author and category and is liked only by stored users |
| StoreInvariants.DeleteUserKeepsCommentRefs | blogproject/blog/models.py:95-98 | after a user deletion every remaining comment's post and author are stored |
| StoreInvariants.DeleteUserKeepsProfileRules | blogproject/user_profile/models.py:17-21 | after a user deletion every remaining profile's user is stored, follows only stored profiles, and profile owners and slugs stay unique |
| StoreInvariants.DeleteUserPreservesIntegrity | blogproject/blog/models.py:96-98 | a user deletion keeps every foreign key and unique rule |
| StoreInvariants.DeleteUserPreservesValid | blogproject/user_profile/models.py:17 | a user deletion keeps integrity and the counter |
| Mixins.AuthorGate | blogproject/blog/mixins.py:9-16 | an anonymous actor is sent to log in, a logged-in actor who is not the author is sent home with a notice, and the author is allowed, each exactly in its case; nothing else is consulted |
| BlogViews.AuthorRequired | blogproject/blog/mixins.py:10-16 | the login check comes before the object lookup, a missing object is `NotFound`, a non-author is refused, and only the author passes |
| BlogViews.PostCreate | blogproject/blog/views.py:208-215 | succeeds exactly for a logged-in actor with a valid form; the new post's author is the actor, it has no likes, it is dated now, and only its category's count moves, by one |
| BlogViews.PostUpdate | blogproject/blog/views.py:224-243 | succeeds exactly for the author with a valid form; only that post changes, only within the form's fields, and no category count moves |
| BlogViews.PostDelete | blogproject/blog/views.py:252-269 | succeeds exactly for the author; the post and its comments go, and its category counts one fewer |
| BlogViews.CommentCreate | blogproject/blog/views.py:291-298 | succeeds exactly for a logged-in actor with a valid form and a slug naming exactly one post; the comment's author is the actor and its post is that post; a missing or repeated slug fails |
| BlogViews.CommentUpdate | blogproject/blog/views.py:307-324 | succeeds exactly for the author with a valid form; only that comment's text changes |
| BlogViews.CommentDelete | blogproject/blog/views.py:333-350 | succeeds exactly for the author and removes only that comment |
| BlogViews.LikeToggle | blogproject/blog/views.py:186-190 | an unknown slug is `NotFound`; on success only the actor's membership in that one post's like set flips, and every other post and table is unchanged |
| BlogViews.CategoryCreate | blogproject/blog/models.py:18 | a new category starts with `post_amount` 0 and keeps a given slug |
| BlogViewProofs.PostCreatePreservesValid | blogproject/blog/signals.py:15-17 | creating a post through the view keeps integrity and the counter |
| BlogViewProofs.PostCreatePreservesIntegrity | blogproject/blog/views.py:213 | creating a post keeps every foreign key |
| BlogViewProofs.PostUpdatePreservesIntegrity | blogproject/blog/forms.py:11-18 | updating a post keeps every foreign key |
| BlogViewProofs.PostUpdateSameCategoryPreservesValid | blogproject/blog/signals.py:15 | an update that keeps the category keeps the counter consistent |
| BlogViewProofs.PostUpdateMovedBreaksCounter | blogproject/blog/signals.py:15 | an update that changes the category always leaves the counter inconsistent |
| BlogViewProofs.MovingAPostBreaksTheCounterExample | blogproject/blog/signals.py:15-17 | a concrete consistent store and update after which the old category claims one post and holds none |
| BlogViewProofs.MoveThenDeleteGoesNegative | blogproject/blog/signals.py:15-29 | after the move in the concrete store, deleting the moved post drives the new category's `post_amount` to -1 |
| BlogViewProofs.CategoryCreatePreservesValid | blogproject/blog/models.py:18 | creating a category keeps integrity and the counter |
| BlogViewProofs.PostDeletePreservesValid | blogproject/blog/signals.py:28-29 | deleting a post through the view keeps integrity and the counter |
| BlogViewProofs.CreateThenDeleteRestores | blogproject/blog/signals.py:16 | creating a post and then deleting it restores the store, every category count included, except the spent key |
| BlogViewProofs.CommentCreatePreservesValid | blogproject/blog/views.py:296-297 | creating a comment keeps integrity and the counter |
| BlogViewProofs.CommentUpdatePreservesValid | blogproject/blog/forms.py:39 | editing a comment keeps integrity and the counter |
| BlogViewProofs.CommentDeletePreservesValid | blogproject/blog/models.py:95 | deleting a comment keeps integrity and the counter |
| BlogViewProofs.LikeTogglePreservesValid | blogproject/blog/views.py:187-190 | a like toggle keeps integrity and the counter |
| BlogViewProofs.LikeToggleTwice | blogproject/blog/views.py:187-190 | toggling the same like twice restores the store |
| BlogViewProofs.LikeToggleCount | blogproject/blog/models.py:76-77 | a like toggle moves the post's `total_likes` by exactly one, up when the actor did not like it and down when they did |
| Common.Toggle | blogproject/blog/views.py:187-190 | the element's membership flips and every other element's is kept |
| FieldRules.LowerAsciiEqualIff | blogproject/blog/models.py:53 | two names compare equal ignoring case exactly when they agree letter by letter after lowering ASCII capitals |
| Common.ToggleTwice | blogproject/blog/views.py:187-190 | flipping the same membership twice gives back the original set |
| FieldRules.ImageExtensionAccepted | blogproject/blog/models.py:53 | an image passes exactly when its extension is png, jpg, webp or jpeg, ignoring letter case |
| FieldRules.NormalizeEmail | blogproject/user_profile/forms.py:23-28 | the address a user model form saves differs from the submitted one only in the case of letters after the last `@`, which are all lower-case, and keeps its length and its last `@` |
| FieldRules.NormalizeEmailIdempotent | blogproject/user_profile/forms.py:23-28 | normalising an already normalised address changes nothing |
| FieldRules.SlugOnSave | blogproject/blog/models.py:66-67 | saving keeps a non-empty slug and gives an empty one the generated value |
| FieldRules.SlugAssignedOnce | blogproject/blog/models.py:30-31 | once a save has given a row a non-empty slug, no later save changes it |
| BlogModels.NewCategory | blogproject/blog/models.py:18 | a new category counts 0 posts and keeps a given slug, deriving one only when none is given |
| BlogModels.Thumbnail | blogproject/blog/models.py:84-86 | the placeholder path is returned exactly when the post has no image or its image is served from that path |
| BlogModels.PostFormProblem | blogproject/blog/models.py:41-54 | a post form is valid exactly when the title is non-blank and at most 150 characters, the category is a stored one, the short description is non-blank and at most 300, the body is non-blank, the slug is blank or slug characters within 200, and any image has an allowed extension; every refusal is a field error |
| BlogModels.CommentFormProblem | blogproject/blog/models.py:99 | a comment form is valid exactly when the text is non-blank and at most 1500 characters; otherwise the text field is refused |
| BlogModels.NewPost | blogproject/blog/views.py:213 | a created post's author is the acting user, it has no likes and it carries the form's values |
| BlogModels.EditPost | blogproject/blog/forms.py:11-18 | a post edit changes only title, category, short_description, body, slug and image, and never author, likes or post_date |
| BlogModels.NewComment | blogproject/blog/views.py:296-297 | a created comment belongs to the given post and the acting user |
| BlogModels.EditComment | blogproject/blog/forms.py:39 | a comment edit changes only the text, and never the post, author or pub_date |
| ProfileModels.NewProfile | blogproject/user_profile/models.py:35-39 | a new profile follows nobody and takes its slug from the username |
| ProfileModels.ProfileImageUrl | blogproject/user_profile/models.py:45-50 | the default avatar is returned exactly when the profile has no image or its image is served from that path |
| ProfileModels.ProfileFormProblem | blogproject/user_profile/models.py:22-29 | a profile form is valid exactly when the bio is at most 500 characters and any image has an allowed extension; every refusal is a field error |
| ProfileModels.EditProfile | blogproject/user_profile/forms.py:14 | a profile edit changes only bio, profile_image and date_birthday, plus the slug when it was empty, and never the user or the follows |
| ProfileModels.EditUser | blogproject/user_profile/forms.py:23-28 | the user edit changes only username, email, first_name and last_name, never the password, and stores the email normalised |
| ProfileForms.CleanEmail | blogproject/user_profile/forms.py:36-42 | an address is refused exactly when it is non-empty and some user with a different username (or any user, when the username failed) holds it; otherwise it passes unchanged |
| ProfileForms.CleanEmailNormalized | blogproject/user_profile/forms.py:36-42 | the uniqueness rule as its docstring means it: refused exactly when the non-empty address, as it will be stored, is held by a user with another username |
| ProfileForms.NormalizedCheckRefusesMore | blogproject/user_profile/forms.py:36-42 | over stored addresses that are all normalised, the rule on the stored form refuses every address the rule as written refuses |
| ProfileForms.CleanEmailAcceptsOwnAddress | blogproject/user_profile/forms.py:40 | an address held only by users with the submitted username passes |
| ProfileForms.CleanEmailRejectsTakenAddress | blogproject/user_profile/forms.py:40-41 | an address held by a user with another username is refused |
| ProfileForms.CleanNewPassword | blogproject/user_profile/forms.py:90-98 | the change is refused exactly when the new password equals the current one, and otherwise the cleaned data comes back unchanged |
| ProfileViews.FollowToggle | blogproject/user_profile/views.py:57-64 | an anonymous actor fails; on success only the target profile's follow set changes, and in it only the actor's profile flips |
| ProfileViews.AccountProblem | blogproject/user_profile/forms.py:51-57 | the account checks pass exactly when the username is present, short enough and free, the email is short enough, and the email rule accepts it |
| ProfileViews.UserFormProblem | blogproject/user_profile/forms.py:23-42 | the user edit form is valid exactly when the account checks pass with the edited user excused from the username rule and first and last names are at most 150 characters |
| ProfileViews.ProfileEdit | blogproject/user_profile/views.py:94-108 | the edit always targets the requester's own profile; it succeeds exactly when both forms are valid and the slug is free, and then saves both rows, otherwise neither |
| ProfileViews.RegisterProblem | blogproject/user_profile/forms.py:45-57 | a registration form is valid exactly when the account checks pass with no user excused and both passwords are given and equal |
| ProfileViews.Register | blogproject/user_profile/views.py:111-120 | a valid registration form stores exactly one new user with the given username and password and the given email normalised; an invalid one stores nothing |
| ProfileViews.ChangePassword | blogproject/user_profile/views.py:172-181 | an anonymous actor is sent to log in; a blank old password is a field error; success requires a non-blank old password that checks, two equal non-blank new ones and a change of password, and then only that user's password changes |
| ProfileViews.ProfileCreate | blogproject/user_profile/models.py:17-21 | a profile row is refused for an unknown user, a user who already has one, or a slug another profile holds |
| ProfileViews.CleanedUsername | blogproject/user_profile/forms.py:39 | the username reaches the email check exactly when its own field passed |
| ProfileViewProofs.FollowToggleTwice | blogproject/user_profile/views.py:60-63 | the same follow request twice restores the store |
| ProfileViewProofs.FollowIsOneWay | blogproject/user_profile/models.py:18-20 | a follow request changes only the target profile's `follows`; the requester's own `follows` is unchanged |
| ProfileViewProofs.FollowTogglePreservesValid | blogproject/user_profile/views.py:61-63 | a follow toggle keeps integrity and the counter |
| ProfileViewProofs.ProfileEditShape | blogproject/user_profile/views.py:102 | after a successful edit the new username, and the email as submitted, are held by no other user, and the slug by no other profile |
| ProfileViewProofs.ProfileEditPreservesValid | blogproject/user_profile/views.py:101-104 | a profile edit keeps integrity (unique usernames and profile slugs) and the counter |
| ProfileViewProofs.ProfileEditCanDuplicateEmail | blogproject/user_profile/forms.py:36-42 | a successful edit to an address whose normalised form another user holds leaves two users sharing that address |
| ProfileViewProofs.ProfileEditWithNormalizedCheckKeepsEmailsUnique | blogproject/user_profile/forms.py:36-42 | when the email rule also passes on the normalised address, a profile edit keeps stored non-empty emails unique |
| ProfileViewProofs.RenameKeepingEmailIsRefused | blogproject/user_profile/forms.py:40-41 | a user who changes their username but keeps their own non-empty email is refused |
| ProfileViewProofs.RegisterRefusesHeldEmail | blogproject/user_profile/forms.py:51-57 | registration refuses any non-empty address a stored user already holds |
| ProfileViewProofs.RegisterPreservesValid | blogproject/user_profile/views.py:111-120 | a registration keeps integrity and the counter |
| ProfileViewProofs.RegisterDuplicatesEmailExample | blogproject/user_profile/forms.py:51-57 | with alice holding `a@example.com`, bob registering with `a@EXAMPLE.com` is accepted and the store then has two users with one email |
| ProfileViewProofs.RegisterWithNormalizedCheckKeepsEmailsUnique | blogproject/user_profile/forms.py:51-57 | when the email rule also passes on the normalised address, a registration keeps stored non-empty emails unique |
| ProfileViewProofs.ChangePasswordNotRepeatable | blogproject/user_profile/forms.py:95-96 | after a successful change, the same form is refused because the old password no longer checks |
| ProfileViewProofs.ChangePasswordPreservesValid | blogproject/user_profile/views.py:177 | a password change keeps integrity, the counter and unique emails |
| ProfileViewProofs.ProfileCreatePreservesValid | blogproject/user_profile/models.py:17-21 | a first profile save keeps one profile per user and unique profile slugs |
| ProfileViewProofs.ProfileCreateOncePerUser | blogproject/user_profile/models.py:17 | a second profile for the same user is refused |
| Ordering.InsertDesc | blogproject/blog/views.py:128 | inserting into a listing sorted by descending key keeps it sorted and adds exactly that element |
| Ordering.SortDesc | blogproject/blog/views.py:128 | the result lists every key exactly once, ordered by descending value |
| Ordering.PrefixHoldsLargest | blogproject/blog/templatetags/blog_tags.py:27 | anything a sorted listing leaves out of its first n entries has a key no larger than every entry kept |
| Queries.PostsInCategory | blogproject/blog/views.py:101-102 | an unknown category fails; otherwise the listing holds exactly the posts whose category is the given one |
| Queries.ListingsMatchCounters | blogproject/blog/views.py:102 | the counter is consistent exactly when every category's listing is as long as its `post_amount` |
| Queries.CategoriesByCount | blogproject/blog/views.py:128 | the category list holds every category exactly once, ordered by `post_amount` descending |
| Queries.CategoriesRankedByPosts | blogproject/blog/views.py:128 | through a consistent counter, the category list ranks categories by the posts they actually hold |
| Queries.PostsNewestFirst | blogproject/blog/views.py:64 | the home listing holds every post exactly once, newest first |
| Queries.LatestComments | blogproject/blog/templatetags/blog_tags.py:27 | a negative count fails; otherwise the result has min(count, number of comments) distinct stored comments, newest first, and no comment left out is newer than one kept |
| Queries.LatestCommentsByDefault | blogproject/blog/templatetags/blog_tags.py:20 | without an argument the five newest comments are shown (all when fewer), each once, newest first, and no comment left out is newer than one shown |
| Queries.SumCountsPosts | blogproject/blog/templatetags/blog_tags.py:16 | through a consistent counter, summing the counts of distinct categories gives the number of posts filed under them |
| Queries.TotalPostIsSumOfCounters | blogproject/blog/templatetags/blog_tags.py:16 | through a consistent counter, `total_post` equals the sum of all categories' `post_amount` |

## Left out

- Ranked full-text search (blogproject/blog/views.py:158-163): it uses floating-point rank scores computed by the database.
- `Profile.get_age`: it uses floating-point day arithmetic and the wall clock.
- Login, logout, session flushing after a password change, and password hashing are framework code. A password is an abstract string, and `check_password` is equality.
- The framework's password strength validators, the username character validator, email syntax checking and whitespace stripping are not modelled. The field checks modelled are presence, length, slug characters, category choice and image extension.
- Forms report every error at once; the model reports the first one it finds. Only whether a form is valid matters to the store.
- Templates, context titles, pagination, redirect targets, message texts, URL routing, admin registration and widget styling are presentation.
- The read-only detail views (`PostDetailView` and its `liked` flag, `ProfileView` and its post list) change nothing and are not modelled.
- Concurrency: the lost update on `post_amount += 1` and doubled toggle submissions. Every request is one atomic step.
- The slug generator is not part of this model. Its result is the parameter `derived`, so the model does not show that generated slugs are unique.
- Which code creates the profile of a new user is not part of this model. `ProfileViews.ProfileCreate` models the first save of a profile row for a given user.
- File storage and upload paths: an image is a URL plus an extension. The rich-text body is a plain string.
- ProfileViews.RegisterProblem: follows the registration form of Django before 4.2, which has no case-insensitive username rule. From 4.2 on, `UserCreationForm` also refuses a username equal to a stored one ignoring case. The source does not pin a framework version.
- ProfileViews.AccountProblem: compares and stores usernames as given. In every framework version a username is NFKC-normalised before its uniqueness check and before it is saved (`UsernameField` on registration, `AbstractBaseUser.clean` on both forms). The model reads `username` as the already normalised string, because Unicode normalisation is not modelled. On the edit form `clean_email` excludes the raw submitted username, and that difference is not modelled either.
- FieldRules.NormalizeEmail: lower-cases only the ASCII letters of the domain. Python's `str.lower` also lowers other capitals, so for a domain holding such letters the framework stores a different address. The whitespace stripping `normalize_email` does is not modelled, since the form field has already stripped the value.
- The admin form for categories exposes `post_amount` (blogproject/blog/admin.py:6-12), so an administrator can set any count by hand, and `BlogStore.CounterConsistent` does not survive that. The model creates categories with the column default 0.
- Categories are created and deleted only through the admin site. They are modelled as the row operations `BlogStore.InsertCategory` and `BlogStore.DeleteCategory`.
- `post_amount` is a 32-bit `IntegerField`, and the model uses unbounded integers. After a post moves category, counters can fall below 0 or exceed the number of posts (`BlogViewProofs.MoveThenDeleteGoesNegative`). Repeated moves make them unbounded, so the 32-bit range of `post_amount` is not modelled.
- Ties in `order_by` are left open by the database. `Queries.CategoriesByCount`, `Queries.PostsNewestFirst` and `Queries.LatestComments` fix one admissible order among equal keys.
