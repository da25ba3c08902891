/** The database as one immutable record, the consistency rules it keeps,
    and the row-level transitions the ORM performs: inserts, saves and
    deletes with their `on_delete` rules and the post-count signal handlers. */
module BlogStore {
  import opened Common
  import opened BlogModels
  import opened ProfileModels

  /** Every table, plus the next value of each table's primary-key sequence. */
  datatype Store = Store(
    users: map<UserId, User>,
    profiles: map<ProfileId, Profile>,
    categories: map<CategoryId, Category>,
    posts: map<PostId, Post>,
    comments: map<CommentId, Comment>,
    nextUser: nat,
    nextProfile: nat,
    nextCategory: nat,
    nextPost: nat,
    nextComment: nat)

  const EmptyStore: Store := Store(map[], map[], map[], map[], map[], 0, 0, 0, 0, 0)

  // ----- the denormalised counter -----

  /** The posts filed under category `c`. */
  function PostsIn(posts: map<PostId, Post>, c: CategoryId): set<PostId> {
    set p | p in posts && posts[p].category == c
  }

  /** Every category's `post_amount` equals the number of its posts. */
  predicate CounterConsistent(s: Store) {
    forall c :: c in s.categories ==> s.categories[c].postAmount == |PostsIn(s.posts, c)|
  }

  // ----- what the database itself guarantees -----

  /** No stored key is at or beyond its table's sequence. */
  predicate IdsIssued(s: Store) {
    && (forall k :: k in s.users ==> k < s.nextUser)
    && (forall k :: k in s.profiles ==> k < s.nextProfile)
    && (forall k :: k in s.categories ==> k < s.nextCategory)
    && (forall k :: k in s.posts ==> k < s.nextPost)
    && (forall k :: k in s.comments ==> k < s.nextComment)
  }

  /** Foreign keys and many-to-many rows of posts point at stored rows. */
  predicate PostRefs(s: Store) {
    forall p :: p in s.posts ==>
      && s.posts[p].author in s.users
      && s.posts[p].category in s.categories
      && s.posts[p].likes <= s.users.Keys
  }

  predicate CommentRefs(s: Store) {
    forall c :: c in s.comments ==> s.comments[c].post in s.posts && s.comments[c].author in s.users
  }

  predicate ProfileRefs(s: Store) {
    forall q :: q in s.profiles ==> s.profiles[q].user in s.users && s.profiles[q].follows <= s.profiles.Keys
  }

  /** `Profile.user` is one-to-one. */
  predicate OneProfilePerUser(s: Store) {
    forall q1, q2 :: q1 in s.profiles && q2 in s.profiles && s.profiles[q1].user == s.profiles[q2].user ==> q1 == q2
  }

  /** `Profile.slug` is declared unique. */
  predicate ProfileSlugsUnique(s: Store) {
    forall q1, q2 :: q1 in s.profiles && q2 in s.profiles && s.profiles[q1].slug == s.profiles[q2].slug ==> q1 == q2
  }

  /** `User.username` is unique in the framework's user table. */
  predicate UsernamesUnique(s: Store) {
    forall u1, u2 :: u1 in s.users && u2 in s.users && s.users[u1].username == s.users[u2].username ==> u1 == u2
  }

  predicate Integrity(s: Store) {
    && IdsIssued(s)
    && PostRefs(s)
    && CommentRefs(s)
    && ProfileRefs(s)
    && OneProfilePerUser(s)
    && ProfileSlugsUnique(s)
    && UsernamesUnique(s)
  }

  /** A stored state with a faithful counter. */
  predicate Valid(s: Store) {
    Integrity(s) && CounterConsistent(s)
  }

  /** A logged-in actor's session refers to a stored user. */
  predicate ActorKnown(s: Store, actor: Actor) {
    actor.Authenticated? ==> actor.user in s.users
  }

  // ----- lookups by slug -----

  /** `.get(slug=...)`: no row, exactly one row, or several rows. */
  datatype Lookup = Missing | Unique(id: nat) | Ambiguous

  lemma SingletonMembers<T>(xs: set<T>)
    requires |xs| == 1
    ensures forall a, b :: a in xs && b in xs ==> a == b
  {
    var x :| x in xs;
    assert |xs - {x}| == 0;
    assert xs == {x};
  }

  lemma TwoMembers<T>(xs: set<T>)
    requires |xs| >= 2
    ensures exists a, b :: a in xs && b in xs && a != b
  {
    var a :| a in xs;
    assert |xs - {a}| >= 1;
    var b :| b in xs - {a};
  }

  function FindBySlug(slugs: map<nat, string>, slug: string): (r: Lookup)
    ensures r.Missing? <==> (forall k :: k in slugs ==> slugs[k] != slug)
    ensures r.Unique? ==> r.id in slugs && slugs[r.id] == slug
    ensures r.Unique? ==> forall k :: k in slugs && slugs[k] == slug ==> k == r.id
    ensures r.Ambiguous? ==> exists k1, k2 :: k1 in slugs && k2 in slugs && k1 != k2 && slugs[k1] == slug && slugs[k2] == slug
  {
    var ids := set k | k in slugs && slugs[k] == slug;
    if ids == {} then
      assert forall k :: k in slugs ==> slugs[k] != slug by {
        forall k | k in slugs ensures slugs[k] != slug {
          assert k !in ids;
        }
      }
      Missing
    else if |ids| == 1 then
      SingletonMembers(ids);
      var k :| k in ids;
      assert forall j :: j in slugs && slugs[j] == slug ==> j in ids;
      Unique(k)
    else
      TwoMembers(ids);
      Ambiguous
  }

  function PostSlugs(posts: map<PostId, Post>): (r: map<PostId, string>)
    ensures r.Keys == posts.Keys && forall p :: p in posts ==> r[p] == posts[p].slug
  {
    map p | p in posts :: posts[p].slug
  }

  function ProfileSlugs(profiles: map<ProfileId, Profile>): (r: map<ProfileId, string>)
    ensures r.Keys == profiles.Keys && forall q :: q in profiles ==> r[q] == profiles[q].slug
  {
    map q | q in profiles :: profiles[q].slug
  }

  /** The profiles belonging to user `u` (at most one in a consistent store). */
  function OwnedBy(profiles: map<ProfileId, Profile>, u: UserId): set<ProfileId> {
    set q | q in profiles && profiles[q].user == u
  }

  /** The profiles left once user `u` is gone, with every follow edge into
      their profile dropped. */
  function ProfilesWithout(profiles: map<ProfileId, Profile>, u: UserId): (r: map<ProfileId, Profile>)
    ensures r.Keys == profiles.Keys - OwnedBy(profiles, u)
    ensures forall q :: q in r ==>
      profiles[q].user != u && r[q] == profiles[q].(follows := profiles[q].follows - OwnedBy(profiles, u))
  {
    var gone := OwnedBy(profiles, u);
    map q | q in profiles && profiles[q].user != u :: profiles[q].(follows := profiles[q].follows - gone)
  }

  /** Every category's counter lowered by the number of `gone` posts it held. */
  function CategoriesWithout(categories: map<CategoryId, Category>, posts: map<PostId, Post>, gone: set<PostId>): (r: map<CategoryId, Category>)
    ensures r.Keys == categories.Keys
    ensures forall c :: c in categories ==>
      r[c] == categories[c].(postAmount := categories[c].postAmount - |PostsIn(posts, c) * gone|)
  {
    map c | c in categories :: categories[c].(postAmount := categories[c].postAmount - |PostsIn(posts, c) * gone|)
  }

  /** The posts user `u` did not write, with `u`'s likes dropped. */
  function PostsWithout(posts: map<PostId, Post>, u: UserId): (r: map<PostId, Post>)
    ensures r.Keys == posts.Keys - AuthoredBy(posts, u)
    ensures forall p :: p in r ==> r[p] == posts[p].(likes := posts[p].likes - {u})
  {
    map p | p in posts && posts[p].author != u :: posts[p].(likes := posts[p].likes - {u})
  }

  /** The comments neither written by `u` nor attached to a `gone` post. */
  function CommentsWithout(comments: map<CommentId, Comment>, u: UserId, gone: set<PostId>): (r: map<CommentId, Comment>)
    ensures forall c :: c in r <==> c in comments && comments[c].author != u && comments[c].post !in gone
    ensures forall c :: c in r ==> r[c] == comments[c]
  {
    map c | c in comments && comments[c].author != u && comments[c].post !in gone :: comments[c]
  }

  /** The profile whose `user` is `u`, if any (`request.user.profile`). */
  function ProfileOf(s: Store, u: UserId): (r: Option<ProfileId>)
    requires OneProfilePerUser(s)
    ensures r.Some? ==> r.value in s.profiles && s.profiles[r.value].user == u
    ensures r.None? <==> (forall q :: q in s.profiles ==> s.profiles[q].user != u)
    ensures r.None? <==> OwnedBy(s.profiles, u) == {}
  {
    var ids := OwnedBy(s.profiles, u);
    if ids == {} then
      assert forall q :: q in s.profiles ==> s.profiles[q].user != u by {
        forall q | q in s.profiles ensures s.profiles[q].user != u {
          assert q !in ids;
        }
      }
      None
    else
      assert forall a, b :: a in ids && b in ids ==> a == b;
      var q :| q in ids;
      Some(q)
  }

  // ----- signal handlers -----

  /** `category_games_amount_post_save` with `created` true: one more post. */
  function CountCreated(categories: map<CategoryId, Category>, c: CategoryId): (r: map<CategoryId, Category>)
    requires c in categories
    ensures r.Keys == categories.Keys
    ensures r[c] == categories[c].(postAmount := categories[c].postAmount + 1)
    ensures forall d :: d in categories && d != c ==> r[d] == categories[d]
  {
    categories[c := categories[c].(postAmount := categories[c].postAmount + 1)]
  }

  /** `category_games_amount_post_delete`: one post fewer. */
  function CountDeleted(categories: map<CategoryId, Category>, c: CategoryId): (r: map<CategoryId, Category>)
    requires c in categories
    ensures r.Keys == categories.Keys
    ensures r[c] == categories[c].(postAmount := categories[c].postAmount - 1)
    ensures forall d :: d in categories && d != c ==> r[d] == categories[d]
  {
    categories[c := categories[c].(postAmount := categories[c].postAmount - 1)]
  }

  // ----- row-level transitions -----

  /** Inserting a category under the next key of its sequence. */
  function InsertCategory(s: Store, c: Category): (t: Store)
    ensures s.nextCategory !in s.categories ==> t.categories.Keys == s.categories.Keys + {s.nextCategory}
    ensures s.nextCategory in t.categories && t.categories[s.nextCategory] == c
    ensures forall k :: k in s.categories && k != s.nextCategory ==> k in t.categories && t.categories[k] == s.categories[k]
    ensures t.posts == s.posts && t.comments == s.comments && t.users == s.users && t.profiles == s.profiles
  {
    s.(categories := s.categories[s.nextCategory := c], nextCategory := s.nextCategory + 1)
  }

  /** Deleting a category: refused while a post references it (`PROTECT`). */
  function DeleteCategory(s: Store, c: CategoryId): (r: Result<Store>)
    ensures c !in s.categories ==> r == Err(NotFound)
    ensures c in s.categories && PostsIn(s.posts, c) != {} ==> r == Err(Protected)
    ensures r.Ok? <==> c in s.categories && (forall p :: p in s.posts ==> s.posts[p].category != c)
    ensures r.Ok? ==> r.value == s.(categories := s.categories - {c})
  {
    if c !in s.categories then Err(NotFound)
    else if PostsIn(s.posts, c) != {} then
      var p :| p in PostsIn(s.posts, c);
      Err(Protected)
    else
      assert forall p :: p in s.posts ==> s.posts[p].category != c by {
        forall p | p in s.posts ensures s.posts[p].category != c {
          assert p !in PostsIn(s.posts, c);
        }
      }
      Ok(s.(categories := s.categories - {c}))
  }

  /** Inserting a new post; the creation signal counts it in its category. */
  function InsertPost(s: Store, p: Post): (t: Store)
    requires p.category in s.categories
    ensures t.posts == s.posts[s.nextPost := p] && t.nextPost == s.nextPost + 1
    ensures t.categories.Keys == s.categories.Keys
    ensures t.categories[p.category].postAmount == s.categories[p.category].postAmount + 1
    ensures forall c :: c in s.categories && c != p.category ==> t.categories[c] == s.categories[c]
    ensures t.comments == s.comments && t.users == s.users && t.profiles == s.profiles
  {
    s.(posts := s.posts[s.nextPost := p], nextPost := s.nextPost + 1,
       categories := CountCreated(s.categories, p.category))
  }

  /** Saving an existing post: the signal sees `created` false and counts nothing. */
  function SavePost(s: Store, id: PostId, p: Post): (t: Store)
    requires id in s.posts
    ensures t.posts == s.posts[id := p]
    ensures t.categories == s.categories
    ensures t.comments == s.comments && t.users == s.users && t.profiles == s.profiles
  {
    s.(posts := s.posts[id := p])
  }

  /** The comments that hang off post `id`. */
  function CommentsOn(comments: map<CommentId, Comment>, id: PostId): set<CommentId> {
    set c | c in comments && comments[c].post == id
  }

  /** Deleting a post: its comments go with it (`CASCADE`) and the deletion
      signal takes it off its category's count. */
  function DeletePost(s: Store, id: PostId): (t: Store)
    requires id in s.posts && s.posts[id].category in s.categories
    ensures t.posts == s.posts - {id}
    ensures t.comments.Keys == s.comments.Keys - CommentsOn(s.comments, id)
    ensures forall c :: c in t.comments ==> t.comments[c] == s.comments[c] && t.comments[c].post != id
    ensures t.categories.Keys == s.categories.Keys
    ensures t.categories[s.posts[id].category].postAmount == s.categories[s.posts[id].category].postAmount - 1
    ensures forall c :: c in s.categories && c != s.posts[id].category ==> t.categories[c] == s.categories[c]
    ensures t.users == s.users && t.profiles == s.profiles
  {
    var kept := map c | c in s.comments && s.comments[c].post != id :: s.comments[c];
    assert kept.Keys == s.comments.Keys - CommentsOn(s.comments, id);
    s.(posts := s.posts - {id}, comments := kept,
       categories := CountDeleted(s.categories, s.posts[id].category))
  }

  function InsertComment(s: Store, c: Comment): (t: Store)
    ensures t.comments == s.comments[s.nextComment := c] && t.nextComment == s.nextComment + 1
    ensures t.posts == s.posts && t.categories == s.categories && t.users == s.users && t.profiles == s.profiles
  {
    s.(comments := s.comments[s.nextComment := c], nextComment := s.nextComment + 1)
  }

  function SaveComment(s: Store, id: CommentId, c: Comment): (t: Store)
    requires id in s.comments
    ensures t.comments == s.comments[id := c]
    ensures t.posts == s.posts && t.categories == s.categories && t.users == s.users && t.profiles == s.profiles
  {
    s.(comments := s.comments[id := c])
  }

  function DeleteComment(s: Store, id: CommentId): (t: Store)
    ensures t.comments == s.comments - {id}
    ensures t.posts == s.posts && t.categories == s.categories && t.users == s.users && t.profiles == s.profiles
  {
    s.(comments := s.comments - {id})
  }

  function InsertUser(s: Store, u: User): (t: Store)
    ensures t.users == s.users[s.nextUser := u] && t.nextUser == s.nextUser + 1
    ensures t.posts == s.posts && t.categories == s.categories && t.comments == s.comments && t.profiles == s.profiles
  {
    s.(users := s.users[s.nextUser := u], nextUser := s.nextUser + 1)
  }

  function SaveUser(s: Store, id: UserId, u: User): (t: Store)
    requires id in s.users
    ensures t.users == s.users[id := u]
    ensures t.posts == s.posts && t.categories == s.categories && t.comments == s.comments && t.profiles == s.profiles
  {
    s.(users := s.users[id := u])
  }

  function InsertProfile(s: Store, p: Profile): (t: Store)
    ensures t.profiles == s.profiles[s.nextProfile := p] && t.nextProfile == s.nextProfile + 1
    ensures t.posts == s.posts && t.categories == s.categories && t.comments == s.comments && t.users == s.users
  {
    s.(profiles := s.profiles[s.nextProfile := p], nextProfile := s.nextProfile + 1)
  }

  function SaveProfile(s: Store, id: ProfileId, p: Profile): (t: Store)
    requires id in s.profiles
    ensures t.profiles == s.profiles[id := p]
    ensures t.posts == s.posts && t.categories == s.categories && t.comments == s.comments && t.users == s.users
  {
    s.(profiles := s.profiles[id := p])
  }

  /** The posts user `u` wrote. */
  function AuthoredBy(posts: map<PostId, Post>, u: UserId): set<PostId> {
    set p | p in posts && posts[p].author == u
  }

  /** Deleting a user. Their posts go (`CASCADE` on `Post.author`), and with
      them every comment on those posts; their own comments and their profile
      go too, and so do the like and follow rows that mention them. The
      deletion signal fires once per removed post, so each category loses the
      number of that user's posts it held. */
  function DeleteUser(s: Store, u: UserId): (r: Result<Store>)
    ensures u !in s.users <==> r == Err(NotFound)
    ensures r.Ok? ==> r.value.users == s.users - {u}
    ensures r.Ok? ==> r.value.posts.Keys == s.posts.Keys - AuthoredBy(s.posts, u)
    ensures r.Ok? ==> forall p :: p in r.value.posts ==>
      r.value.posts[p] == s.posts[p].(likes := s.posts[p].likes - {u})
    ensures r.Ok? ==> forall c :: c in r.value.comments ==>
      c in s.comments && r.value.comments[c] == s.comments[c]
      && s.comments[c].author != u && s.comments[c].post !in AuthoredBy(s.posts, u)
    ensures r.Ok? ==> forall c :: (c in s.comments && s.comments[c].author != u
      && s.comments[c].post !in AuthoredBy(s.posts, u)) ==> c in r.value.comments
    ensures r.Ok? ==> r.value.profiles.Keys == s.profiles.Keys - OwnedBy(s.profiles, u)
    ensures r.Ok? ==> forall q :: q in r.value.profiles ==>
      s.profiles[q].user != u
      && r.value.profiles[q] == s.profiles[q].(follows := s.profiles[q].follows - OwnedBy(s.profiles, u))
    ensures r.Ok? ==> r.value.categories.Keys == s.categories.Keys
    ensures r.Ok? ==> forall c :: c in s.categories ==>
      r.value.categories[c] == s.categories[c].(postAmount := s.categories[c].postAmount - |PostsIn(s.posts, c) * AuthoredBy(s.posts, u)|)
    ensures r.Ok? ==> r.value == s.(users := r.value.users, profiles := r.value.profiles,
      categories := r.value.categories, posts := r.value.posts, comments := r.value.comments)
  {
    if u !in s.users then Err(NotFound)
    else
      var gone := AuthoredBy(s.posts, u);
      Ok(s.(users := s.users - {u},
        profiles := ProfilesWithout(s.profiles, u),
        categories := CategoriesWithout(s.categories, s.posts, gone),
        posts := PostsWithout(s.posts, u),
        comments := CommentsWithout(s.comments, u, gone)))
  }
}
