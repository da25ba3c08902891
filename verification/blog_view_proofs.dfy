/** What the blog request handlers preserve: the database's integrity, the
    post counter (except across a category change), and the round trips
    "create then delete" and "like twice". */
module BlogViewProofs {
  import opened Common
  import opened FieldRules
  import opened BlogModels
  import opened ProfileModels
  import opened BlogStore
  import opened StoreInvariants
  import opened BlogViews

  /** The parts of integrity that only the post table can break. */
  lemma PostTableIntegrity(s: Store, t: Store)
    requires Integrity(s)
    requires t.users == s.users && t.profiles == s.profiles && t.categories.Keys == s.categories.Keys
    requires t.nextUser == s.nextUser && t.nextProfile == s.nextProfile && t.nextCategory == s.nextCategory
    requires t.comments == s.comments && t.nextComment == s.nextComment
    requires s.posts.Keys <= t.posts.Keys
    requires forall p :: p in t.posts ==> p < t.nextPost
    requires PostRefs(t)
    ensures Integrity(t)
  {
  }

  lemma {:induction false} PostCreatePreservesValid(s: Store, actor: Actor, f: PostForm, now: Time, derived: string)
    requires Valid(s) && ActorKnown(s, actor)
    requires PostCreate(s, actor, f, now, derived).Ok?
    ensures Valid(PostCreate(s, actor, f, now, derived).value)
  {
    var p := NewPost(actor.user, f, now, derived);
    var t := PostCreate(s, actor, f, now, derived).value;
    assert t == InsertPost(s, p);
    assert PostRefs(t);
    PostTableIntegrity(s, t);
    InsertPostKeepsCounter(s, p);
  }

  lemma PostUpdatePreservesIntegrity(s: Store, actor: Actor, id: PostId, f: PostForm, derived: string)
    requires Integrity(s)
    requires PostUpdate(s, actor, id, f, derived).Ok?
    ensures Integrity(PostUpdate(s, actor, id, f, derived).value)
  {
    var t := PostUpdate(s, actor, id, f, derived).value;
    assert PostRefs(t);
    PostTableIntegrity(s, t);
  }

  /** An update that keeps the post in its category keeps the counter faithful. */
  lemma PostUpdateSameCategoryPreservesValid(s: Store, actor: Actor, id: PostId, f: PostForm, derived: string)
    requires Valid(s)
    requires PostUpdate(s, actor, id, f, derived).Ok?
    requires f.category == s.posts[id].category
    ensures Valid(PostUpdate(s, actor, id, f, derived).value)
  {
    PostUpdatePreservesIntegrity(s, actor, id, f, derived);
    SavePostKeepsCounter(s, id, EditPost(s.posts[id], f, derived));
  }

  /** An update that moves a post to another category leaves the old
      category counting one post too many and the new one one too few. */
  lemma PostUpdateMovedBreaksCounter(s: Store, actor: Actor, id: PostId, f: PostForm, derived: string)
    requires Valid(s)
    requires PostUpdate(s, actor, id, f, derived).Ok?
    requires f.category != s.posts[id].category
    ensures var t, from := PostUpdate(s, actor, id, f, derived).value, s.posts[id].category;
      && t.categories[from].postAmount == |PostsIn(t.posts, from)| + 1
      && t.categories[f.category].postAmount == |PostsIn(t.posts, f.category)| - 1
      && !CounterConsistent(t)
  {
    SavePostMovedBreaksCounter(s, id, EditPost(s.posts[id], f, derived));
  }

  /** One author, two categories ("Tech" and "Life"), one post filed under
      "Tech", and both counters right. */
  const ExampleStore: Store :=
    EmptyStore.(
      users := map[0 := User("alice", "alice@example.com", "", "", "secret")],
      categories := map[0 := Category("Tech", "tech", "", 1), 1 := Category("Life", "life", "", 0)],
      posts := map[0 := Post("Intro", 0, "short", "body", "intro", 0, 0, {}, None)],
      nextUser := 1, nextCategory := 2, nextPost := 1)

  /** The edit form that refiles the post under "Life". */
  const ExampleMove: PostForm := PostForm("Intro", 1, "short", "body", "intro", None)

  lemma ExampleStoreValid()
    ensures Valid(ExampleStore)
    ensures PostsIn(ExampleStore.posts, 0) == {0}
  {
    assert PostsIn(ExampleStore.posts, 0) == {0};
    assert PostsIn(ExampleStore.posts, 1) == {};
  }

  /** Moving the post leaves "Tech" counting a post it no longer holds. */
  lemma MovingAPostBreaksTheCounterExample()
    ensures Valid(ExampleStore)
    ensures var r := PostUpdate(ExampleStore, Authenticated(0), 0, ExampleMove, "intro");
      && r.Ok?
      && r.value.categories[0].postAmount == 1
      && PostsIn(r.value.posts, 0) == {}
      && !CounterConsistent(r.value)
  {
    ExampleStoreValid();
    assert SlugInput(ExampleMove.slug, PostSlugMax);
    assert PostUpdate(ExampleStore, Authenticated(0), 0, ExampleMove, "intro").Ok?;
    PostUpdateMovedBreaksCounter(ExampleStore, Authenticated(0), 0, ExampleMove, "intro");
  }

  /** After the move, deleting the post lowers "Life", which never counted
      it, to -1: the counter leaves the range of the number of posts. */
  lemma MoveThenDeleteGoesNegative()
    ensures var moved := PostUpdate(ExampleStore, Authenticated(0), 0, ExampleMove, "intro");
      && moved.Ok? && PostRefs(moved.value)
      && PostDelete(moved.value, Authenticated(0), 0).Ok?
      && PostDelete(moved.value, Authenticated(0), 0).value.categories[1].postAmount == -1
  {
    MovingAPostBreaksTheCounterExample();
    PostUpdatePreservesIntegrity(ExampleStore, Authenticated(0), 0, ExampleMove, "intro");
  }

  /** A new category (from the admin site) keeps integrity and the counter. */
  lemma CategoryCreatePreservesValid(s: Store, name: string, slug: string, description: string, derived: string)
    requires Valid(s)
    ensures Valid(CategoryCreate(s, name, slug, description, derived))
  {
    var c := NewCategory(name, slug, description, derived);
    InsertCategoryKeepsCounter(s, c);
    assert CategoryCreate(s, name, slug, description, derived) == InsertCategory(s, c);
  }

  lemma {:induction false} PostDeletePreservesValid(s: Store, actor: Actor, id: PostId)
    requires Valid(s)
    requires PostDelete(s, actor, id).Ok?
    ensures Valid(PostDelete(s, actor, id).value)
  {
    var t := PostDelete(s, actor, id).value;
    assert t == DeletePost(s, id);
    assert CommentRefs(t);
    DeletePostKeepsCounter(s, id);
  }

  /** Creating a post and deleting it again restores every table; only the
      post sequence has moved on. */
  lemma {:induction false} CreateThenDeleteRestores(s: Store, actor: Actor, f: PostForm, now: Time, derived: string)
    requires Integrity(s) && ActorKnown(s, actor)
    requires PostCreate(s, actor, f, now, derived).Ok?
    ensures PostDelete(PostCreate(s, actor, f, now, derived).value, actor, s.nextPost)
      == Ok(s.(nextPost := s.nextPost + 1))
  {
    var t := PostCreate(s, actor, f, now, derived).value;
    PostCreatePreservesIntegrity(s, actor, f, now, derived);
    var r := PostDelete(t, actor, s.nextPost);
    assert r.Ok?;
    RestoredTables(s, t, r.value, f.category);
  }

  /** The table-by-table argument behind `CreateThenDeleteRestores`. */
  lemma RestoredTables(s: Store, t: Store, u: Store, c: CategoryId)
    requires IdsIssued(s) && CommentRefs(s)
    requires t == s.(posts := t.posts, categories := t.categories, nextPost := s.nextPost + 1)
    requires t.posts.Keys == s.posts.Keys + {s.nextPost}
    requires forall q :: q in s.posts && q != s.nextPost ==> t.posts[q] == s.posts[q]
    requires c in s.categories && t.categories.Keys == s.categories.Keys
    requires t.categories[c] == s.categories[c].(postAmount := s.categories[c].postAmount + 1)
    requires forall d :: d in s.categories && d != c ==> t.categories[d] == s.categories[d]
    requires t.posts[s.nextPost].category == c
    requires u == t.(posts := u.posts, comments := u.comments, categories := u.categories)
    requires u.posts == t.posts - {s.nextPost}
    requires forall k :: k in u.comments ==> k in t.comments && u.comments[k] == t.comments[k]
    requires forall k :: k in t.comments && t.comments[k].post != s.nextPost ==> k in u.comments
    requires u.categories.Keys == t.categories.Keys
    requires u.categories[c] == t.categories[c].(postAmount := t.categories[c].postAmount - 1)
    requires forall d :: d in t.categories && d != c ==> u.categories[d] == t.categories[d]
    ensures u == s.(nextPost := s.nextPost + 1)
  {
    assert s.nextPost !in s.posts;
    assert u.posts == s.posts;
    assert u.comments == s.comments;
    assert u.categories == s.categories;
  }

  lemma PostCreatePreservesIntegrity(s: Store, actor: Actor, f: PostForm, now: Time, derived: string)
    requires Integrity(s) && ActorKnown(s, actor)
    requires PostCreate(s, actor, f, now, derived).Ok?
    ensures Integrity(PostCreate(s, actor, f, now, derived).value)
  {
    var t := PostCreate(s, actor, f, now, derived).value;
    assert PostRefs(t);
    PostTableIntegrity(s, t);
  }

  /** The parts of integrity that only the comment table can break. */
  lemma CommentTableIntegrity(s: Store, t: Store)
    requires Integrity(s)
    requires t.users == s.users && t.profiles == s.profiles && t.categories == s.categories && t.posts == s.posts
    requires t.nextUser == s.nextUser && t.nextProfile == s.nextProfile && t.nextCategory == s.nextCategory
    requires t.nextPost == s.nextPost
    requires forall k :: k in t.comments ==> k < t.nextComment
    requires CommentRefs(t)
    ensures Integrity(t)
  {
  }

  /** Storing a new comment whose post and author exist keeps the store valid. */
  lemma InsertCommentPreservesValid(s: Store, c: Comment)
    requires Valid(s) && c.post in s.posts && c.author in s.users
    ensures Valid(InsertComment(s, c))
  {
    var t := InsertComment(s, c);
    assert CommentRefs(t) by {
      forall k | k in t.comments
        ensures t.comments[k].post in t.posts && t.comments[k].author in t.users
      {
        if k != s.nextComment {
          assert t.comments[k] == s.comments[k];
        }
      }
    }
    CommentTableIntegrity(s, t);
  }

  /** Rewriting a comment that keeps its post and author keeps the store valid. */
  lemma SaveCommentPreservesValid(s: Store, id: CommentId, c: Comment)
    requires Valid(s) && id in s.comments
    requires c.post == s.comments[id].post && c.author == s.comments[id].author
    ensures Valid(SaveComment(s, id, c))
  {
    var t := SaveComment(s, id, c);
    assert CommentRefs(t) by {
      forall k | k in t.comments
        ensures t.comments[k].post in t.posts && t.comments[k].author in t.users
      {
        if k != id {
          assert t.comments[k] == s.comments[k];
        }
      }
    }
    CommentTableIntegrity(s, t);
  }

  lemma CommentCreatePreservesValid(s: Store, actor: Actor, slug: string, f: CommentForm, now: Time)
    requires Valid(s) && ActorKnown(s, actor)
    requires CommentCreate(s, actor, slug, f, now).Ok?
    ensures Valid(CommentCreate(s, actor, slug, f, now).value)
  {
    var p := PostWithSlug(s, slug).id;
    assert CommentCreate(s, actor, slug, f, now).value == InsertComment(s, NewComment(p, actor.user, f, now));
    InsertCommentPreservesValid(s, NewComment(p, actor.user, f, now));
  }

  lemma CommentUpdatePreservesValid(s: Store, actor: Actor, id: CommentId, f: CommentForm)
    requires Valid(s)
    requires CommentUpdate(s, actor, id, f).Ok?
    ensures Valid(CommentUpdate(s, actor, id, f).value)
  {
    assert CommentUpdate(s, actor, id, f).value == SaveComment(s, id, EditComment(s.comments[id], f));
    SaveCommentPreservesValid(s, id, EditComment(s.comments[id], f));
  }

  lemma CommentDeletePreservesValid(s: Store, actor: Actor, id: CommentId)
    requires Valid(s)
    requires CommentDelete(s, actor, id).Ok?
    ensures Valid(CommentDelete(s, actor, id).value)
  {
    var t := CommentDelete(s, actor, id).value;
    CommentTableIntegrity(s, t);
  }

  /** A change confined to like sets, which stay within the stored users,
      keeps integrity and the counter. */
  lemma LikesOnlyChange(s: Store, t: Store)
    requires Valid(s)
    requires t == s.(posts := t.posts) && t.posts.Keys == s.posts.Keys
    requires forall q :: q in s.posts ==> t.posts[q] == s.posts[q].(likes := t.posts[q].likes)
    requires forall q :: q in t.posts ==> t.posts[q].likes <= t.users.Keys
    ensures Valid(t)
  {
    assert PostRefs(t);
    PostTableIntegrity(s, t);
    assert SameFiling(s.posts, t.posts);
    CounterFrame(s, t);
  }

  /** A like toggle touches like sets only, and only with a stored user. */
  lemma LikeToggleShape(s: Store, actor: Actor, slug: string)
    requires PostRefs(s) && ActorKnown(s, actor)
    requires LikeToggle(s, actor, slug).Ok?
    ensures var t := LikeToggle(s, actor, slug).value;
      && t == s.(posts := t.posts) && t.posts.Keys == s.posts.Keys
      && (forall q :: q in s.posts ==> t.posts[q] == s.posts[q].(likes := t.posts[q].likes))
      && (forall q :: q in t.posts ==> t.posts[q].likes <= t.users.Keys)
  {
    var t := LikeToggle(s, actor, slug).value;
    var p := PostWithSlug(s, slug).id;
    assert t.posts[p].likes <= s.posts[p].likes + {actor.user};
  }

  lemma LikeTogglePreservesValid(s: Store, actor: Actor, slug: string)
    requires Valid(s) && ActorKnown(s, actor)
    requires LikeToggle(s, actor, slug).Ok?
    ensures Valid(LikeToggle(s, actor, slug).value)
  {
    LikeToggleShape(s, actor, slug);
    LikesOnlyChange(s, LikeToggle(s, actor, slug).value);
  }

  /** Liking twice in a row leaves the store exactly as it was. */
  lemma {:induction false} LikeToggleTwice(s: Store, actor: Actor, slug: string)
    requires LikeToggle(s, actor, slug).Ok?
    ensures LikeToggle(LikeToggle(s, actor, slug).value, actor, slug) == Ok(s)
  {
    var t := LikeToggle(s, actor, slug).value;
    var p := PostWithSlug(s, slug).id;
    assert PostSlugs(t.posts) == PostSlugs(s.posts);
    ToggleTwice(s.posts[p].likes, actor.user);
    assert t.posts[p := t.posts[p].(likes := Toggle(t.posts[p].likes, actor.user))] == s.posts;
  }

  /** `total_likes` moves by exactly one with each toggle. */
  lemma LikeToggleCount(s: Store, actor: Actor, slug: string)
    requires LikeToggle(s, actor, slug).Ok?
    ensures var p := PostWithSlug(s, slug).id;
      TotalLikes(LikeToggle(s, actor, slug).value.posts[p]) ==
        TotalLikes(s.posts[p]) + (if actor.user in s.posts[p].likes then -1 else 1)
  {
    var p := PostWithSlug(s, slug).id;
    var before := s.posts[p].likes;
    var after := LikeToggle(s, actor, slug).value.posts[p].likes;
    if actor.user in before {
      assert after == before - {actor.user};
    } else {
      assert after == before + {actor.user};
    }
  }
}
