/** The request handlers of the blog application that change the store:
    creating, updating and deleting posts and comments, and the like toggle.
    Each takes the store and the request's inputs and returns the new store,
    or the error that ends the request with nothing persisted. */
module BlogViews {
  import opened Common
  import opened BlogModels
  import opened BlogStore
  import opened Mixins

  function PostAuthor(s: Store, id: PostId): Option<UserId> {
    if id in s.posts then Some(s.posts[id].author) else None
  }

  function CommentAuthor(s: Store, id: CommentId): Option<UserId> {
    if id in s.comments then Some(s.comments[id].author) else None
  }

  /** `AuthorRequiredMixin.dispatch`: the login check comes first, then the
      object is fetched (404 when absent), then the author is compared. */
  function AuthorRequired(actor: Actor, author: Option<UserId>): (r: Result<UserId>)
    ensures actor.Anonymous? ==> r == Err(LoginRequired)
    ensures actor.Authenticated? && author.None? ==> r == Err(NotFound)
    ensures actor.Authenticated? && author.Some? && author.value != actor.user ==> r == Err(NotAuthor)
    ensures r.Ok? <==> author.Some? && actor == Authenticated(author.value)
    ensures r.Ok? ==> r.value == actor.user
  {
    if actor.Anonymous? then Err(LoginRequired)
    else if author.None? then Err(NotFound)
    else if AuthorGate(actor, author.value) == Allow then Ok(author.value)
    else Err(NotAuthor)
  }

  /** `get_object_or_404(Post, slug=...)` and `Post.objects.get(slug=...)`. */
  function PostWithSlug(s: Store, slug: string): Lookup {
    FindBySlug(PostSlugs(s.posts), slug)
  }

  /** A category saved for the first time, under the next category key. */
  function CategoryCreate(s: Store, name: string, slug: string, description: string, derived: string): (t: Store)
    ensures s.nextCategory in t.categories && t.categories[s.nextCategory].postAmount == 0
    ensures slug != [] ==> t.categories[s.nextCategory].slug == slug
    ensures forall c :: c in s.categories && c != s.nextCategory ==> c in t.categories && t.categories[c] == s.categories[c]
    ensures t.posts == s.posts
  {
    InsertCategory(s, NewCategory(name, slug, description, derived))
  }

  /** `PostCreateView`: a logged-in user submits a valid form; the post is
      theirs and its category counts one more post. */
  function PostCreate(s: Store, actor: Actor, f: PostForm, now: Time, derived: string): (r: Result<Store>)
    ensures actor.Anonymous? ==> r == Err(LoginRequired)
    ensures r.Ok? <==> actor.Authenticated? && PostFormProblem(s.categories.Keys, f).None?
    ensures r.Ok? ==>
      var t, id := r.value, s.nextPost;
      && t.posts.Keys == s.posts.Keys + {id}
      && (forall q :: q in s.posts && q != id ==> t.posts[q] == s.posts[q])
      && t.posts[id].author == actor.user && t.posts[id].category == f.category
      && t.posts[id].likes == {} && t.posts[id].postDate == now && t.posts[id].title == f.title
      && t.categories.Keys == s.categories.Keys
      && t.categories[f.category].postAmount == s.categories[f.category].postAmount + 1
      && t.categories[f.category] == s.categories[f.category].(postAmount := t.categories[f.category].postAmount)
      && (forall c :: c in s.categories && c != f.category ==> t.categories[c] == s.categories[c])
      && t == s.(posts := t.posts, categories := t.categories, nextPost := s.nextPost + 1)
  {
    if actor.Anonymous? then Err(LoginRequired)
    else
      var problem := PostFormProblem(s.categories.Keys, f);
      if problem.Some? then Err(Invalid(problem.value))
      else Ok(InsertPost(s, NewPost(actor.user, f, now, derived)))
  }

  /** `PostUpdateView`: only the author may submit, only the form's fields
      change, and no category count moves, even when the category does. */
  function PostUpdate(s: Store, actor: Actor, id: PostId, f: PostForm, derived: string): (r: Result<Store>)
    ensures actor.Anonymous? ==> r == Err(LoginRequired)
    ensures actor.Authenticated? && id in s.posts && s.posts[id].author != actor.user ==> r == Err(NotAuthor)
    ensures r.Ok? <==>
      id in s.posts && actor == Authenticated(s.posts[id].author) && PostFormProblem(s.categories.Keys, f).None?
    ensures r.Ok? ==>
      var t := r.value;
      && t.posts.Keys == s.posts.Keys
      && (forall q :: q in s.posts && q != id ==> t.posts[q] == s.posts[q])
      && PostFieldsChanged(s.posts[id], t.posts[id]) <= PostFormFields
      && t.posts[id].category == f.category && t.posts[id].title == f.title
      && t == s.(posts := t.posts)
  {
    var gate := AuthorRequired(actor, PostAuthor(s, id));
    if gate.Err? then Err(gate.error)
    else
      var problem := PostFormProblem(s.categories.Keys, f);
      if problem.Some? then Err(Invalid(problem.value))
      else Ok(SavePost(s, id, EditPost(s.posts[id], f, derived)))
  }

  /** `PostDeleteView`: only the author may delete; the post's comments go
      with it and its category counts one post fewer. */
  function PostDelete(s: Store, actor: Actor, id: PostId): (r: Result<Store>)
    requires PostRefs(s)
    ensures actor.Anonymous? ==> r == Err(LoginRequired)
    ensures actor.Authenticated? && id in s.posts && s.posts[id].author != actor.user ==> r == Err(NotAuthor)
    ensures r.Ok? <==> id in s.posts && actor == Authenticated(s.posts[id].author)
    ensures r.Ok? ==>
      var t, c := r.value, s.posts[id].category;
      && t.posts == s.posts - {id}
      && (forall k :: k in t.comments ==> k in s.comments && t.comments[k] == s.comments[k] && t.comments[k].post != id)
      && (forall k :: k in s.comments && s.comments[k].post != id ==> k in t.comments)
      && t.categories.Keys == s.categories.Keys
      && t.categories[c].postAmount == s.categories[c].postAmount - 1
      && t.categories[c] == s.categories[c].(postAmount := t.categories[c].postAmount)
      && (forall d :: d in s.categories && d != c ==> t.categories[d] == s.categories[d])
      && t == s.(posts := t.posts, comments := t.comments, categories := t.categories)
  {
    var gate := AuthorRequired(actor, PostAuthor(s, id));
    if gate.Err? then Err(gate.error)
    else
      var t := DeletePost(s, id);
      assert forall k :: k in s.comments && s.comments[k].post != id ==> k !in CommentsOn(s.comments, id);
      Ok(t)
  }

  /** `CommentCreateView`: the form is validated first; then the post is
      fetched by slug with a bare `.get`, so a missing or repeated slug is an
      unhandled error. The comment's author is the acting user. */
  function CommentCreate(s: Store, actor: Actor, slug: string, f: CommentForm, now: Time): (r: Result<Store>)
    ensures actor.Anonymous? ==> r == Err(LoginRequired)
    ensures actor.Authenticated? && CommentFormProblem(f).None? && !PostWithSlug(s, slug).Unique? ==> r == Err(ServerError)
    ensures r.Ok? <==> actor.Authenticated? && CommentFormProblem(f).None? && PostWithSlug(s, slug).Unique?
    ensures r.Ok? ==> s.nextComment in r.value.comments
    ensures r.Ok? ==>
      var t, c := r.value, r.value.comments[s.nextComment];
      && t.comments == s.comments[s.nextComment := c]
      && c.author == actor.user && c.text == f.text && c.pubDate == now
      && c.post in s.posts && s.posts[c.post].slug == slug
      && (forall q :: q in s.posts && s.posts[q].slug == slug ==> q == c.post)
      && t == s.(comments := t.comments, nextComment := s.nextComment + 1)
  {
    if actor.Anonymous? then Err(LoginRequired)
    else
      var problem := CommentFormProblem(f);
      if problem.Some? then Err(Invalid(problem.value))
      else match PostWithSlug(s, slug)
        case Unique(p) => Ok(InsertComment(s, NewComment(p, actor.user, f, now)))
        case _ => Err(ServerError)
  }

  /** `CommentUpdateView`: only the author may submit, and only the text changes. */
  function CommentUpdate(s: Store, actor: Actor, id: CommentId, f: CommentForm): (r: Result<Store>)
    ensures actor.Anonymous? ==> r == Err(LoginRequired)
    ensures actor.Authenticated? && id in s.comments && s.comments[id].author != actor.user ==> r == Err(NotAuthor)
    ensures r.Ok? <==> id in s.comments && actor == Authenticated(s.comments[id].author) && CommentFormProblem(f).None?
    ensures r.Ok? ==>
      var t := r.value;
      && t.comments.Keys == s.comments.Keys
      && (forall k :: k in s.comments && k != id ==> t.comments[k] == s.comments[k])
      && CommentFieldsChanged(s.comments[id], t.comments[id]) <= CommentFormFields
      && t.comments[id].text == f.text
      && t == s.(comments := t.comments)
  {
    var gate := AuthorRequired(actor, CommentAuthor(s, id));
    if gate.Err? then Err(gate.error)
    else
      var problem := CommentFormProblem(f);
      if problem.Some? then Err(Invalid(problem.value))
      else Ok(SaveComment(s, id, EditComment(s.comments[id], f)))
  }

  /** `CommentDeleteView`: only the author may delete the comment. */
  function CommentDelete(s: Store, actor: Actor, id: CommentId): (r: Result<Store>)
    ensures actor.Anonymous? ==> r == Err(LoginRequired)
    ensures actor.Authenticated? && id in s.comments && s.comments[id].author != actor.user ==> r == Err(NotAuthor)
    ensures r.Ok? <==> id in s.comments && actor == Authenticated(s.comments[id].author)
    ensures r.Ok? ==>
      var t := r.value;
      && t == s.(comments := s.comments - {id})
  {
    var gate := AuthorRequired(actor, CommentAuthor(s, id));
    if gate.Err? then Err(gate.error)
    else Ok(DeleteComment(s, id))
  }

  /** `LikeCreateView.post`: the post is fetched by slug (404 when absent),
      then the actor's like is flipped. No login is checked: an anonymous
      actor cannot be added to the like set and the request fails. */
  function LikeToggle(s: Store, actor: Actor, slug: string): (r: Result<Store>)
    ensures PostWithSlug(s, slug).Missing? ==> r == Err(NotFound)
    ensures PostWithSlug(s, slug).Ambiguous? ==> r == Err(ServerError)
    ensures actor.Anonymous? ==> r.Err?
    ensures r.Ok? <==> actor.Authenticated? && PostWithSlug(s, slug).Unique?
    ensures r.Ok? ==>
      var t, p, u := r.value, PostWithSlug(s, slug).id, actor.user;
      && p in s.posts && t.posts.Keys == s.posts.Keys
      && (forall q :: q in s.posts && q != p ==> t.posts[q] == s.posts[q])
      && (u in t.posts[p].likes <==> u !in s.posts[p].likes)
      && (forall v :: v != u ==> (v in t.posts[p].likes <==> v in s.posts[p].likes))
      && t.posts[p].(likes := s.posts[p].likes) == s.posts[p]
      && t == s.(posts := t.posts)
  {
    match PostWithSlug(s, slug)
    case Missing => Err(NotFound)
    case Ambiguous => Err(ServerError)
    case Unique(p) =>
      if actor.Anonymous? then Err(ServerError)
      else
        var post := s.posts[p];
        Ok(s.(posts := s.posts[p := post.(likes := Toggle(post.likes, actor.user))]))
  }
}
