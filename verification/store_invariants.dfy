/** How each row-level transition acts on the denormalised counter: which
    transitions keep `post_amount` equal to the number of posts per category,
    and the one that does not. */
module StoreInvariants {
  import opened Common
  import opened BlogModels
  import opened BlogStore

  /** Two post tables file every key under the same category. */
  predicate SameFiling(a: map<PostId, Post>, b: map<PostId, Post>) {
    a.Keys == b.Keys && forall p :: p in a ==> a[p].category == b[p].category
  }

  /** A transition that keeps the counters and the filing of every post
      keeps the counter consistent. */
  lemma CounterFrame(s: Store, t: Store)
    requires CounterConsistent(s)
    requires t.categories == s.categories && SameFiling(s.posts, t.posts)
    ensures CounterConsistent(t)
  {
    forall c | c in t.categories
      ensures t.categories[c].postAmount == |PostsIn(t.posts, c)|
    {
      assert PostsIn(t.posts, c) == PostsIn(s.posts, c);
    }
  }

  /** Storing `p` under key `id` refiles that one key and no other. */
  lemma PostsInAfterPut(posts: map<PostId, Post>, id: PostId, p: Post, c: CategoryId)
    ensures PostsIn(posts[id := p], c) ==
      (PostsIn(posts, c) - {id}) + (if p.category == c then {id} else {})
  {
  }

  /** Creating a post: its category counts one more and holds one more post. */
  lemma {:induction false} InsertPostKeepsCounter(s: Store, p: Post)
    requires CounterConsistent(s)
    requires p.category in s.categories && s.nextPost !in s.posts
    ensures CounterConsistent(InsertPost(s, p))
  {
    var t := InsertPost(s, p);
    forall c | c in t.categories
      ensures t.categories[c].postAmount == |PostsIn(t.posts, c)|
    {
      PostsInAfterPut(s.posts, s.nextPost, p, c);
      assert s.nextPost !in PostsIn(s.posts, c);
      assert PostsIn(s.posts, c) - {s.nextPost} == PostsIn(s.posts, c);
    }
  }

  /** Deleting a post: its category counts one fewer and holds one fewer post. */
  lemma {:induction false} DeletePostKeepsCounter(s: Store, id: PostId)
    requires CounterConsistent(s)
    requires id in s.posts && s.posts[id].category in s.categories
    ensures CounterConsistent(DeletePost(s, id))
  {
    var t := DeletePost(s, id);
    var home := s.posts[id].category;
    forall c | c in t.categories
      ensures t.categories[c].postAmount == |PostsIn(t.posts, c)|
    {
      if c == home {
        assert PostsIn(t.posts, c) == PostsIn(s.posts, c) - {id};
        assert id in PostsIn(s.posts, c);
      } else {
        assert PostsIn(t.posts, c) == PostsIn(s.posts, c);
      }
    }
  }

  /** Saving a post that stays in its category keeps the counter consistent. */
  lemma SavePostKeepsCounter(s: Store, id: PostId, p: Post)
    requires CounterConsistent(s)
    requires id in s.posts && p.category == s.posts[id].category
    ensures CounterConsistent(SavePost(s, id, p))
  {
    CounterFrame(s, SavePost(s, id, p));
  }

  /** Saving a post under another category leaves both counters as they were,
      so both disagree with the posts they hold afterwards. */
  lemma {:induction false} SavePostMovedBreaksCounter(s: Store, id: PostId, p: Post)
    requires CounterConsistent(s)
    requires id in s.posts && p.category != s.posts[id].category
    requires p.category in s.categories && s.posts[id].category in s.categories
    ensures var t := SavePost(s, id, p);
      && t.categories[s.posts[id].category].postAmount == |PostsIn(t.posts, s.posts[id].category)| + 1
      && t.categories[p.category].postAmount == |PostsIn(t.posts, p.category)| - 1
      && !CounterConsistent(t)
  {
    var t := SavePost(s, id, p);
    var from, to := s.posts[id].category, p.category;
    PostsInAfterPut(s.posts, id, p, from);
    assert id in PostsIn(s.posts, from);
    PostsInAfterPut(s.posts, id, p, to);
    assert id !in PostsIn(s.posts, to);
    assert PostsIn(s.posts, to) - {id} == PostsIn(s.posts, to);
  }

  /** A new category holds no posts, matching its zero counter. */
  lemma InsertCategoryKeepsCounter(s: Store, c: Category)
    requires CounterConsistent(s) && PostRefs(s) && IdsIssued(s)
    requires c.postAmount == 0
    ensures CounterConsistent(InsertCategory(s, c))
  {
    var t := InsertCategory(s, c);
    forall k | k in t.categories
      ensures t.categories[k].postAmount == |PostsIn(t.posts, k)|
    {
      if k == s.nextCategory {
        assert PostsIn(t.posts, k) == {};
      }
    }
  }

  /** Deleting an unreferenced category keeps every other counter. */
  lemma DeleteCategoryKeepsCounter(s: Store, c: CategoryId)
    requires CounterConsistent(s)
    requires DeleteCategory(s, c).Ok?
    ensures CounterConsistent(DeleteCategory(s, c).value)
  {
  }

  /** Deleting a user: each category loses exactly the posts of that user it held. */
  lemma {:induction false} DeleteUserKeepsCounter(s: Store, u: UserId)
    requires CounterConsistent(s)
    requires DeleteUser(s, u).Ok?
    ensures CounterConsistent(DeleteUser(s, u).value)
  {
    var t := DeleteUser(s, u).value;
    var gone := AuthoredBy(s.posts, u);
    forall c | c in t.categories
      ensures t.categories[c].postAmount == |PostsIn(t.posts, c)|
    {
      var before := PostsIn(s.posts, c);
      assert PostsIn(t.posts, c) == before - (before * gone);
      CardDifference(before, before * gone);
    }
  }

  /** Deleting an unreferenced category leaves every foreign key intact. */
  lemma DeleteCategoryPreservesValid(s: Store, c: CategoryId)
    requires Valid(s)
    requires DeleteCategory(s, c).Ok?
    ensures Valid(DeleteCategory(s, c).value)
  {
    DeleteCategoryKeepsCounter(s, c);
  }

  lemma DeleteUserKeepsPostRefs(s: Store, u: UserId)
    requires PostRefs(s)
    requires DeleteUser(s, u).Ok?
    ensures PostRefs(DeleteUser(s, u).value)
  {
    var t := DeleteUser(s, u).value;
    forall p | p in t.posts
      ensures t.posts[p].author in t.users && t.posts[p].category in t.categories && t.posts[p].likes <= t.users.Keys
    {
      assert p !in AuthoredBy(s.posts, u);
    }
  }

  lemma DeleteUserKeepsCommentRefs(s: Store, u: UserId)
    requires CommentRefs(s)
    requires DeleteUser(s, u).Ok?
    ensures CommentRefs(DeleteUser(s, u).value)
  {
    var t := DeleteUser(s, u).value;
    forall c | c in t.comments
      ensures t.comments[c].post in t.posts && t.comments[c].author in t.users
    {
      assert t.comments[c].post in s.posts - AuthoredBy(s.posts, u);
    }
  }

  lemma DeleteUserKeepsProfileRules(s: Store, u: UserId)
    requires ProfileRefs(s) && OneProfilePerUser(s) && ProfileSlugsUnique(s)
    requires DeleteUser(s, u).Ok?
    ensures var t := DeleteUser(s, u).value;
      ProfileRefs(t) && OneProfilePerUser(t) && ProfileSlugsUnique(t)
  {
    var t := DeleteUser(s, u).value;
    forall q | q in t.profiles
      ensures t.profiles[q].user in t.users && t.profiles[q].follows <= t.profiles.Keys
    {
      assert t.profiles[q].follows == s.profiles[q].follows - OwnedBy(s.profiles, u);
    }
    assert forall q :: q in t.profiles ==> t.profiles[q].user == s.profiles[q].user && t.profiles[q].slug == s.profiles[q].slug;
  }

  /** The cascade of a user deletion leaves no row pointing at a removed one. */
  lemma DeleteUserPreservesIntegrity(s: Store, u: UserId)
    requires Integrity(s)
    requires DeleteUser(s, u).Ok?
    ensures Integrity(DeleteUser(s, u).value)
  {
    DeleteUserKeepsPostRefs(s, u);
    DeleteUserKeepsCommentRefs(s, u);
    DeleteUserKeepsProfileRules(s, u);
  }

  lemma DeleteUserPreservesValid(s: Store, u: UserId)
    requires Valid(s)
    requires DeleteUser(s, u).Ok?
    ensures Valid(DeleteUser(s, u).value)
  {
    DeleteUserPreservesIntegrity(s, u);
    DeleteUserKeepsCounter(s, u);
  }
}
